/** The submit step: preview rows become `{name, age}` records by position,
    and one write per record is queued on a store batch. */
module Submit {
  import opened Cells

  /** A stored user: `name` is cell 0 of its row and `age` cell 1. */
  datatype Record = Record(name: Cell, age: Cell)

  /** The name of the remote collection the page writes to and reads from. */
  const UsersCollection: string := "users"

  /** One queued `batch.set(db.collection(c).doc(), data)`; the document id is
      assigned by the store and is not part of the model. */
  datatype SetOp = BatchSet(collection: string, data: Record)

  /** JavaScript `row[j]`: `undefined` past the end of the row. */
  function Field(row: seq<Cell>, j: nat): Cell
  {
    if j < |row| then row[j] else Hole
  }

  /** `rows.map(row => ({name: row[0], age: row[1]}))`: one record per row, in order. */
  function FormatRecords(rows: seq<seq<Cell>>): (r: seq<Record>)
    ensures |r| == |rows|
    ensures forall j :: 0 <= j < |rows| ==> r[j].name == Field(rows[j], 0) && r[j].age == Field(rows[j], 1)
  {
    if rows == [] then []
    else [Record(Field(rows[0], 0), Field(rows[0], 1))] + FormatRecords(rows[1..])
  }

  /** The `forEach` that queues one `set` on the `users` collection per record, in order. */
  method QueueBatch(formattedValues: seq<Record>) returns (batch: seq<SetOp>)
    ensures |batch| == |formattedValues|
    ensures forall j :: 0 <= j < |batch| ==> batch[j] == BatchSet(UsersCollection, formattedValues[j])
  {
    batch := [];
    var i := 0;
    while i < |formattedValues|
      invariant 0 <= i <= |formattedValues|
      invariant |batch| == i
      invariant forall j :: 0 <= j < i ==> batch[j] == BatchSet(UsersCollection, formattedValues[j])
    {
      batch := batch + [BatchSet(UsersCollection, formattedValues[i])];
      i := i + 1;
    }
  }

  /** The records written by a batch, in queue order. */
  function Written(batch: seq<SetOp>): seq<Record>
  {
    if batch == [] then [] else [batch[0].data] + Written(batch[1..])
  }

  /** A queued batch writes exactly the records it was given, in order, all to `users`. */
  lemma {:induction false} BatchWritesRecords(records: seq<Record>, batch: seq<SetOp>)
    requires |batch| == |records|
    requires forall j :: 0 <= j < |batch| ==> batch[j] == BatchSet(UsersCollection, records[j])
    ensures Written(batch) == records
  {
    if batch != [] {
      BatchWritesRecords(records[1..], batch[1..]);
    }
  }
}
