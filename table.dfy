/**
  The `messages` table and the effect of one constrained INSERT on it.

  The table is a map from `message_id` to the stored row. The uniqueness
  constraint on `message_id` (declared with the schema, which is not part of
  this model) is the map's key discipline: a row is stored under its own id,
  and an INSERT whose id is already a key is refused with an integrity error.
*/
module MessageTable {
  import opened Wrappers

  /** One row, with the columns the INSERT names. */
  datatype Row = Row(
    messageId: string,
    fromMsisdn: string,
    toMsisdn: string,
    ts: string,
    text: Option<string>,
    createdAt: string)

  type Table = map<string, Row>

  /** Every row is stored under its own `message_id`. */
  predicate WellKeyed(t: Table) {
    forall id :: id in t ==> t[id].messageId == id
  }

  /** Why the engine refused a write. */
  datatype DbError =
    | IntegrityError              // the uniqueness constraint on message_id
    | OperationalError(reason: string)  // any other engine failure (locked, I/O, ...)

  /**
    One INSERT followed by a commit. `fault` is an engine failure that does not
    depend on the data; it comes from outside the model, so it is an input.
    A refused write leaves the table as it was.
  */
  function ExecuteInsert(t: Table, row: Row, fault: Option<string>): (r: Result<Table, DbError>)
    ensures r.Ok? <==> fault.None? && row.messageId !in t
    ensures r == Err(IntegrityError) <==> fault.None? && row.messageId in t
    ensures r.Err? && r.error.OperationalError? ==> fault == Some(r.error.reason)
    ensures r.Ok? ==> r.value.Keys == t.Keys + {row.messageId}
    ensures r.Ok? ==> |r.value| == |t| + 1
    ensures r.Ok? ==> r.value[row.messageId] == row
    ensures r.Ok? ==> forall id :: id in t ==> r.value[id] == t[id]
  {
    if fault.Some? then Err(OperationalError(fault.value))
    else if row.messageId in t then Err(IntegrityError)
    else
      var t' := t[row.messageId := row];
      assert t'.Keys == t.Keys + {row.messageId};
      Ok(t')
  }
}
