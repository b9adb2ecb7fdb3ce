/** The page component's state (`users`, `show`, `headers`, `rows`) and the
    handlers that change it, plus what the dialog body and list display. */
module Dialog {
  import opened Cells
  import opened SheetImport
  import opened Submit
  import opened Export

  /** Items paired with their displayed row number, counting from 1. */
  function Numbered<T>(xs: seq<T>): (r: seq<(nat, T)>)
    ensures |r| == |xs|
    ensures forall j :: 0 <= j < |xs| ==> r[j] == (j + 1, xs[j])
  {
    if xs == [] then [] else Numbered(xs[..|xs| - 1]) + [(|xs|, xs[|xs| - 1])]
  }

  /** What the dialog body renders. */
  datatype DialogBody =
    | FilePicker
    | PreviewTable(columns: seq<Cell>, body: seq<(nat, seq<Cell>)>)

  /** The file picker whenever the header or the rows are empty; otherwise the
      preview table, header as given and rows numbered from 1. */
  function ModalBody(headers: seq<Cell>, rows: seq<seq<Cell>>): (b: DialogBody)
    ensures b.FilePicker? <==> |headers| == 0 || |rows| == 0
    ensures b.PreviewTable? ==> b.columns == headers && |b.body| == |rows|
    ensures b.PreviewTable? ==> forall j :: 0 <= j < |rows| ==> b.body[j] == (j + 1, rows[j])
  {
    if |headers| < 1 || |rows| < 1 then FilePicker else PreviewTable(headers, Numbered(rows))
  }

  /** After an upload of array rows the dialog leaves the file picker for the
      preview exactly when the header row has a cell and there is a data row. */
  lemma UploadShowsPreview(k: Coercion, d: seq<Entry>)
    requires AllRows(d)
    ensures ModalBody(Headers(d), DataRows(k, d)).PreviewTable? <==> |d| >= 2 && |d[0].fields| > 0
  {
    ArrayRowsPreview(k, d);
  }

  /** What the user list renders. */
  datatype ListView = NoUsersFound | Listing(entries: seq<(nat, Record)>)

  /** The "no users" line exactly when the list is empty; otherwise every user,
      in list order, numbered from 1. */
  function UserList(users: seq<Record>): (v: ListView)
    ensures v.NoUsersFound? <==> |users| == 0
    ensures v.Listing? ==> |v.entries| == |users|
    ensures v.Listing? ==> forall j :: 0 <= j < |users| ==> v.entries[j] == (j + 1, users[j])
  {
    if |users| < 1 then NoUsersFound else Listing(Numbered(users))
  }

  /** One `db.collection(c).get()`: a read of every document of the collection. */
  datatype ReadOp = GetAll(collection: string)

  /** The component `App` and its four pieces of state. */
  class App {
    var users: seq<Record>
    var show: bool
    var headers: seq<Cell>
    var rows: seq<seq<Cell>>
    /** Reads of `users` issued by `fetchUsers` whose result has not yet arrived. */
    ghost var pendingFetches: nat

    /** The initial state: no users yet (the mount-time fetch is issued by
        `OnMount` and resolves through `FetchUsersResolved`), the dialog closed
        and the preview empty. */
    constructor ()
      ensures users == [] && !show && headers == [] && rows == []
      ensures pendingFetches == 0
    {
      pendingFetches := 0;
      users := [];
      show := false;
      headers := [];
      rows := [];
    }

    /** `handleShow`: opens the dialog and leaves the preview as it is. */
    method HandleShow()
      modifies this
      ensures show
      ensures headers == old(headers) && rows == old(rows) && users == old(users)
      ensures pendingFetches == old(pendingFetches)
    {
      show := true;
    }

    /** `resetModal`: closes the dialog and clears the preview. */
    method ResetModal()
      modifies this
      ensures !show && headers == [] && rows == []
      ensures users == old(users) && pendingFetches == old(pendingFetches)
    {
      show := false;
      headers := [];
      rows := [];
    }

    /** `handleClose`: the same reset. */
    method HandleClose()
      modifies this
      ensures !show && headers == [] && rows == []
      ensures users == old(users) && pendingFetches == old(pendingFetches)
    {
      ResetModal();
    }

    /** `processSheetData` on the decoded first sheet: the header is entry 0 as
        given and the rows are every later entry, coerced; nothing else changes. */
    method ProcessSheetData(dataParse: seq<Entry>, k: Coercion)
      modifies this
      ensures headers == Headers(dataParse) && rows == DataRows(k, dataParse)
      ensures show == old(show) && users == old(users)
      ensures pendingFetches == old(pendingFetches)
    {
      var csv: seq<seq<Cell>> := [];
      var heads: seq<Cell> := [];
      var i := 0;
      while i < |dataParse|
        invariant 0 <= i <= |dataParse|
        invariant heads == Headers(dataParse[..i])
        invariant csv == DataRows(k, dataParse[..i])
        invariant show == old(show) && users == old(users)
        invariant pendingFetches == old(pendingFetches)
      {
        assert dataParse[..i + 1][..i] == dataParse[..i];
        if dataParse[i].EmptyString? {
          i := i + 1;
          continue;
        }
        var fields := dataParse[i].fields;
        if i == 0 {
          heads := fields;
        } else {
          var csvRow := CoerceFields(k, fields);
          assert csvRow == CoerceRow(k, fields);
          csv := csv + [csvRow];
        }
        i := i + 1;
      }
      assert dataParse[..i] == dataParse;
      headers := heads;
      rows := csv;
    }

    /** The synchronous part of `handleSubmit`: one queued write per preview
        row, in order, with name from cell 0 and age from cell 1. The state is
        untouched until the commit succeeds. */
    method HandleSubmit() returns (batch: seq<SetOp>)
      ensures |batch| == |rows|
      ensures forall j :: 0 <= j < |rows| ==>
        batch[j] == BatchSet(UsersCollection, Record(Field(rows[j], 0), Field(rows[j], 1)))
    {
      var formattedValues := FormatRecords(rows);
      batch := QueueBatch(formattedValues);
    }

    /** The mount-time effect: it issues `fetchUsers()` once. */
    method OnMount() returns (fetch: ReadOp)
      modifies this
      ensures fetch == GetAll(UsersCollection)
      ensures pendingFetches == old(pendingFetches) + 1
      ensures users == old(users) && show == old(show) && headers == old(headers) && rows == old(rows)
    {
      fetch := FetchUsers();
    }

    /** The synchronous part of `fetchUsers`: one more outstanding read of the
        whole `users` collection; its result arrives later through
        `FetchUsersResolved`, and until then no state changes. */
    method FetchUsers() returns (fetch: ReadOp)
      modifies this
      ensures fetch == GetAll(UsersCollection)
      ensures pendingFetches == old(pendingFetches) + 1
      ensures users == old(users) && show == old(show) && headers == old(headers) && rows == old(rows)
    {
      fetch := GetAll(UsersCollection);
      pendingFetches := pendingFetches + 1;
    }

    /** The `commit().then` continuation: it issues `fetchUsers()`, whose
        result arrives later through `FetchUsersResolved`, and then resets the dialog. */
    method CommitSucceeded() returns (fetch: ReadOp)
      modifies this
      ensures fetch == GetAll(UsersCollection)
      ensures pendingFetches == old(pendingFetches) + 1
      ensures !show && headers == [] && rows == []
      ensures users == old(users)
    {
      fetch := FetchUsers();
      ResetModal();
    }

    /** The `get().then` continuation of `fetchUsers`: the result of one
        outstanding read replaces `users` wholesale. */
    method FetchUsersResolved(data: seq<Record>)
      requires pendingFetches > 0
      modifies this
      ensures users == data
      ensures pendingFetches == old(pendingFetches) - 1
      ensures show == old(show) && headers == old(headers) && rows == old(rows)
    {
      users := data;
      pendingFetches := pendingFetches - 1;
    }

    /** `createFile`: a new worksheet with one row per current user, saved
        under the fixed file name. */
    method CreateFile() returns (worksheet: Worksheet, fileName: string)
      ensures fresh(worksheet)
      ensures worksheet.rows == ExportRows(users)
      ensures fileName == ExportFileName
    {
      worksheet := ReadWriteToExcelFile(users);
      fileName := ExportFileName;
    }
  }

  /** Cancelling a preview and opening the dialog again starts at the file picker. */
  method CancelThenReopen(app: App)
    modifies app
    ensures app.show && ModalBody(app.headers, app.rows) == FilePicker
    ensures app.users == old(app.users) && app.pendingFetches == old(app.pendingFetches)
  {
    app.HandleClose();
    app.HandleShow();
  }

  /** A successful commit followed by the arrival of the read it issued: the
      dialog is closed and empty, the fetched list is shown, and no read is
      left outstanding that was not outstanding before. */
  method CommitThenRefresh(app: App, data: seq<Record>)
    modifies app
    ensures !app.show && ModalBody(app.headers, app.rows) == FilePicker
    ensures app.users == data
    ensures app.pendingFetches == old(app.pendingFetches)
  {
    var fetch := app.CommitSucceeded();
    app.FetchUsersResolved(data);
  }
}
