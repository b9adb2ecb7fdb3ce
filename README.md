# Spreadsheet import/export page — Dafny model

This project models the import/export logic of the page component `App`
(`src/App.js`). The page lets a user pick a spreadsheet and preview its first
sheet. The first row is the header and the later rows are data, with
numeric-looking cells turned into numbers. Submitting the preview writes one
`{name, age}` document per row to the `users` collection in a single batch.
The page lists the stored users and exports them as one sparse worksheet row
each.

Modules, one per step of the pipeline:

- `Cells` (`cells.dfy`): the cell datatype. `Hole` is JavaScript `undefined`,
  used both for an empty slot of a sparse row and for a read past the end of
  a row. This file also holds the numeric coercion `isNaN`/`Number`, kept
  abstract as a `Coercion` parameter. `Lawful` names the two JavaScript facts
  the proofs use: `undefined` is not numeric, and a number converts to itself.
- `SheetImport` (`sheet_import.dfy`): `processSheetData`'s inner `for…of`
  loop (`CoerceFields`) and the functions that specify the whole
  transformation (`Headers`, `DataRows`, `CoerceRow`). The outer index loop,
  with the skip test and the header, is `Dialog.App.ProcessSheetData`.
- `Submit` (`submit.dfy`): the positional record mapping and the batch of
  queued writes.
- `Export` (`export.dfy`): sparse-array assignment, the export rows and the
  worksheet they are appended to.
- `Dialog` (`dialog.dfy`): the component state as a class `App` with the
  fields `users`, `show`, `headers` and `rows`. Its handlers are methods. It
  also holds the read request that `fetchUsers` issues, and what the dialog
  body and the user list display.
- `Pipeline` (`pipeline.dfy`): properties that span import, submit and
  export, and the worked example of a two-row sheet.

Asynchronous completions are modelled as their own methods. Issuing a store
request returns it as a value: `HandleSubmit` returns its batch, and
`FetchUsers` (called on mount and after a commit) returns a read of the whole
collection. A ghost counter `pendingFetches` on `App` records the reads issued
whose results have not arrived, so a result can only be delivered for a read
that was issued. After `commit()` resolves, `CommitSucceeded` runs. After `get()` resolves,
`FetchUsersResolved` runs, and the fetched documents are its parameter. A store
operation that fails never calls its continuation, so in the model the method
is simply never invoked.

## Model

| member | source | states |
|---|---|---|
| `Cells.Coerce` | src/App.js:48 | a data cell either stays as it is or becomes a number, and it becomes a number only when the numeric test holds for it |
| `Cells.CoerceLawful` | src/App.js:48 | coercing twice is the same as coercing once; numbers and `undefined` pass through unchanged; a text cell is kept exactly when it is not numeric |
| `SheetImport.CoerceRow` | src/App.js:46-50 | a coerced data row has the source row's length, and cell j is the coercion of source cell j |
| `SheetImport.CoerceFields` | src/App.js:46-50 | the `for…of` loop builds a row of the same length whose cell j is `Number(field)` when the field is numeric and the field itself otherwise |
| `SheetImport.ArrayRowsPreview` | src/App.js:38-55 | for array rows: an empty sheet gives an empty header and no rows; otherwise row 0 is the header verbatim, there are exactly `|dataParse| - 1` data rows, and data row j is source row j+1 coerced cell by cell |
| `SheetImport.EmptyStringSkipped` | src/App.js:41 | an entry equal to `""` adds no data row and, after position 0, leaves the header unchanged; at position 0 it leaves the header empty |
| `SheetImport.DataRowsStable` | src/App.js:46-51 | under the JavaScript facts, every cell of every data row is already in coerced form |
| `Submit.FormatRecords` | src/App.js:79-84 | one record per preview row, in order, with name from cell 0 and age from cell 1 (`undefined` when the row is shorter) |
| `Submit.QueueBatch` | src/App.js:85-87 | exactly one `set` on the `users` collection is queued per record, in record order |
| `Submit.BatchWritesRecords` | src/App.js:77-87 | a batch built that way writes exactly the given records, in order |
| `Export.AssignIndex` | src/App.js:116-118 | JavaScript `a[j] = v` sets index j, keeps the other existing slots, and grows the array to length j+1 with holes when j is past the end |
| `Export.ExportRows` | src/App.js:112-121 | one worksheet row per user, in list order, each of length 3 with index 0 empty, the name at index 1 and the age at index 2 |
| `Export.Worksheet.constructor` | src/App.js:105-106 | a new worksheet has no rows |
| `Export.Worksheet.AddRow` | src/App.js:120 | `addRow` appends the given row and changes nothing else |
| `Export.AddRowsToExcelSheet` | src/App.js:110-121 | the worksheet ends with its old rows followed by the export rows of the list, in order |
| `Export.ReadWriteToExcelFile` | src/App.js:103-108 | a fresh worksheet that holds exactly the export rows of the list |
| `Dialog.Numbered` | src/App.js:172-174 | item j is shown with the number j+1 |
| `Dialog.ModalBody` | src/App.js:153-182 | the file picker exactly when `headers` or `rows` is empty; otherwise the table with the header as given and the rows numbered from 1 |
| `Dialog.UploadShowsPreview` | src/App.js:153 | after an upload of array rows, the preview table appears exactly when there are at least two rows and the header row is not empty |
| `Dialog.UserList` | src/App.js:202-214 | the "No users found." line exactly when the list is empty; otherwise every user in list order, numbered from 1 |
| `Dialog.App.constructor` | src/App.js:19-22 | the initial state: no users, dialog closed, empty header and rows, no read outstanding |
| `Dialog.App.HandleShow` | src/App.js:31 | `show` becomes true; `headers`, `rows` and `users` are unchanged |
| `Dialog.App.ResetModal` | src/App.js:70-74 | `show` is false and `headers` and `rows` are empty; `users` is unchanged |
| `Dialog.App.HandleClose` | src/App.js:28-30 | the same reset as `resetModal` |
| `Dialog.App.ProcessSheetData` | src/App.js:33-56 | `headers` and `rows` become the header and data rows of the decoded sheet; `show` and `users` are unchanged |
| `Dialog.App.HandleSubmit` | src/App.js:76-87 | one queued write to `users` per preview row, in order, holding `{name: row[0], age: row[1]}`; the state is not changed |
| `Dialog.App.OnMount` | src/App.js:24-26 | on mount one read of the whole `users` collection is issued and becomes outstanding; the four state fields are unchanged |
| `Dialog.App.FetchUsers` | src/App.js:94-96 | `fetchUsers` issues exactly one read of the whole `users` collection, which becomes outstanding; `users` and the dialog state are unchanged until it resolves |
| `Dialog.App.CommitSucceeded` | src/App.js:88-91 | after a successful commit one read of the whole `users` collection is issued, that read becomes outstanding, the dialog is closed and the preview is cleared; `users` is unchanged until the read resolves |
| `Dialog.App.FetchUsersResolved` | src/App.js:94-100 | only an outstanding read can resolve; its fetched list replaces `users` wholesale, one read fewer is outstanding, and the dialog state is unchanged |
| `Dialog.App.CreateFile` | src/App.js:122-128 | export builds a fresh worksheet holding the export rows of the current users, saved as `teste.xlsx` |
| `Dialog.CancelThenReopen` | src/App.js:28-31 | cancelling and then opening again shows the file picker, and the users are kept |
| `Dialog.CommitThenRefresh` | src/App.js:88-100 | a successful commit followed by the arrival of its re-fetch leaves the dialog closed on the file picker and `users` equal to the fetched list, with no new read outstanding |
| `Pipeline.ReadBack` | src/App.js:116-120 | reading back an exported row drops the unused index 0 and gives an array row |
| `Pipeline.ExportThenImport` | src/App.js:33-56 | for users whose name and age the numeric coercion leaves unchanged, exporting them and re-importing the file with a header row put in front gives back the same users in the same order, and the header as given |
| `Pipeline.ExportThenImportLosesFirstUser` | src/App.js:43-44 | for users whose name and age the numeric coercion leaves unchanged, importing an exported file as it is turns the first user into the header and submits only the other users, because export writes no header row |
| `Pipeline.NumericTextNameBecomesNumber` | src/App.js:48 | export and re-import do not round-trip numeric-looking text: a user named by the text `"30"` comes back named by the number 30 |
| `Pipeline.ImportedRecordsStable` | src/App.js:79-84 | records made from any imported sheet are already in coerced form |
| `Pipeline.ImportExportImport` | src/App.js:110-121 | users that came from an import come back from export and re-import (with a header) exactly, in order |
| `Pipeline.AnnAndBo` | src/App.js:33-84 | the sheet with header `Name, Age` and rows `Ann, "30"` and `Bo, "41"` has that header, previews the two rows numbered 1 and 2 with the ages as numbers, and submits `{Ann, 30}` and `{Bo, 41}` |

## Left out

- Rendering with react-bootstrap (src/App.js:130-219) is left out, because it is presentation. Only what the dialog body and the user list show is modelled.
- `FileReader`, `XLSX.read` and `XLSX.utils.sheet_to_json`, including the choice of the first sheet (src/App.js:34-37, 58-68), are left out: they are file I/O and foreign decoding. The decoded sheet is the input of `ProcessSheetData`. Cell kinds other than text, integer and `undefined` (booleans, dates) are not modelled.
- The exact `isNaN`/`Number` rules are left out: whitespace, hex, `""` becoming 0, and floating point. The pair is the abstract `Coercion` parameter, and `Number` yields an `int`.
- Firestore `batch`, `set`, `commit` and `get` (src/App.js:77, 86, 88, 95-97) are a network client and are left out. The batch is modelled as the list of queued writes. Store-assigned document ids are not modelled. A failed commit or fetch is the absence of a later `CommitSucceeded` or `FetchUsersResolved` call.
- Firestore's own rejection of `undefined` field values in `set` is library behaviour and is left out. A record built from a short row holds `Hole`.
- ExcelJS `writeBuffer` and file-saver `saveAs` (src/App.js:122-123) are foreign serialisation and download and are left out. The export's output is the worksheet's list of sparse rows plus the file name.
- Pipeline.ReadBack: it is an assumption about the spreadsheet writer and decoder, not a model of their code. The writer puts sparse index j in column j. The decoder returns column j at index j-1. How the decoder treats empty trailing cells is not modelled. The round-trip lemmas inherit this assumption.
- Promise ordering and timing are left out. File reading, `commit` and `get` complete as separate method calls, in any order the caller chooses. So a file read that completes after the dialog was closed fills the preview while `show` is false. The model allows this, as the code does: `ProcessSheetData` has no precondition on `show`. For that reason no invariant "closed implies empty preview" is claimed. Re-opening starts at the file picker when the dialog was reset and no read completed in between (`Dialog.CancelThenReopen`).
