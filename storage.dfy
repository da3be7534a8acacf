/**
  The idempotent message insert (app/storage.py).

  `insert_message` builds one row from the caller's message, with `created_at`
  stamped from the clock, and runs a single INSERT against the table. A new
  `message_id` is committed and reported as created; an integrity error from
  the engine is caught and reported as a duplicate with nothing committed; any
  other exception propagates to the caller.

  The clock is the parameter `utcNow` (the ISO-8601 text of the current UTC
  time) and an engine failure unrelated to the data is the parameter `fault`.
*/
module Storage {
  import opened Wrappers
  import opened MessageTable

  /** The message as handed to `insert_message`: field name to value. */
  type MessageDict = map<string, string>

  /** The two values `insert_message` returns. */
  datatype Status = Created | Duplicate {
    /** The string the source returns: one of two distinct texts, one per status. */
    function Text(): (r: string)
      ensures r == "created" || r == "duplicate"
      ensures r == "created" <==> this == Created
    {
      match this
      case Created => "created"
      case Duplicate => "duplicate"
    }
  }

  /** The exceptions `insert_message` lets through to its caller. */
  datatype Failure =
    | KeyError(key: string)        // a required field is missing from the message
    | StorageError(reason: string) // an engine failure other than an integrity error

  /** What one call produces: a returned status or a raised exception. */
  datatype Outcome = Returned(status: Status) | Raised(failure: Failure)

  /** The fields read with `message[...]`, in the order the parameter tuple evaluates them. */
  const RequiredKeys: seq<string> := ["message_id", "from", "to", "ts"]

  /** The optional field, read with `message.get(...)`. */
  const TextKey := "text"

  /** The message holds every field the INSERT reads with `message[...]`. */
  predicate HasRequiredFields(m: MessageDict) {
    "message_id" in m && "from" in m && "to" in m && "ts" in m
  }

  /** `HasRequiredFields` is exactly "every key of `RequiredKeys` is in the message". */
  lemma RequiredFieldsAreRequiredKeys(m: MessageDict)
    ensures HasRequiredFields(m) <==> forall k :: k in RequiredKeys ==> k in m
  {
  }

  /** The message's id, when it has one. */
  function IdOf(m: MessageDict): Option<string> {
    if "message_id" in m then Some(m["message_id"]) else None
  }

  /** The position of the first of `keys` missing from `m`, scanning left to right. */
  function FirstMissing(keys: seq<string>, m: MessageDict): (r: Option<nat>)
    ensures r.None? <==> forall i :: 0 <= i < |keys| ==> keys[i] in m
    ensures r.Some? ==> r.value < |keys| && keys[r.value] !in m
    ensures r.Some? ==> forall j :: 0 <= j < r.value ==> keys[j] in m
  {
    if keys == [] then None
    else if keys[0] !in m then Some(0)
    else match FirstMissing(keys[1..], m)
      case None => None
      case Some(i) => Some(i + 1)
  }

  /** `datetime.utcnow().isoformat() + "Z"`: the clock text with a trailing `Z`. */
  function Stamp(utcNow: string): (s: string)
    ensures |s| == |utcNow| + 1
    ensures s[..|utcNow|] == utcNow && s[|utcNow|] == 'Z'
  {
    utcNow + "Z"
  }

  /**
    The INSERT's parameter tuple. A missing required field raises `KeyError`
    for the first one missing; `text` is absent (`None`) when the message has
    none; `created_at` is always the store's own stamp.
  */
  function BuildRow(m: MessageDict, utcNow: string): (r: Result<Row, Failure>)
    ensures r.Ok? <==> HasRequiredFields(m)
    ensures r.Err? ==> r.error.KeyError? && r.error.key !in m
                       && exists i :: 0 <= i < |RequiredKeys| && r.error.key == RequiredKeys[i]
                                      && forall j :: 0 <= j < i ==> RequiredKeys[j] in m
    ensures r.Ok? ==> && r.value.messageId == m["message_id"]
                      && r.value.fromMsisdn == m["from"]
                      && r.value.toMsisdn == m["to"]
                      && r.value.ts == m["ts"]
    ensures r.Ok? ==> r.value.text == (if TextKey in m then Some(m[TextKey]) else None)
    ensures r.Ok? ==> r.value.createdAt == Stamp(utcNow)
  {
    match FirstMissing(RequiredKeys, m)
    case Some(i) =>
      assert !HasRequiredFields(m);
      Err(KeyError(RequiredKeys[i]))
    case None =>
      assert RequiredKeys[1] in m && RequiredKeys[2] in m && RequiredKeys[3] in m;
      Ok(Row(m["message_id"], m["from"], m["to"], m["ts"],
             if TextKey in m then Some(m[TextKey]) else None,
             Stamp(utcNow)))
  }

  /** The result of one call and the table after it. */
  datatype Step = Step(outcome: Outcome, table: Table)

  /**
    One call of `insert_message` on table `t`: the specification of
    `MessageStore.InsertMessage`.
  */
  function Insert(t: Table, m: MessageDict, utcNow: string, fault: Option<string>): (s: Step)
    ensures s.outcome == Returned(Created) <==> HasRequiredFields(m) && fault.None? && m["message_id"] !in t
    ensures s.outcome == Returned(Duplicate) <==> HasRequiredFields(m) && fault.None? && m["message_id"] in t
    ensures s.outcome.Raised? <==> !HasRequiredFields(m) || fault.Some?
    ensures s.outcome.Raised? && s.outcome.failure.StorageError? ==> fault == Some(s.outcome.failure.reason)
    ensures s.outcome != Returned(Created) ==> s.table == t
    ensures t.Keys <= s.table.Keys
    ensures forall id :: id in t ==> s.table[id] == t[id]
    ensures WellKeyed(t) ==> WellKeyed(s.table)
  {
    match BuildRow(m, utcNow)
    case Err(e) => Step(Raised(e), t)
    case Ok(row) =>
      match ExecuteInsert(t, row, fault)
      case Ok(t') => Step(Returned(Created), t')
      case Err(IntegrityError) => Step(Returned(Duplicate), t)
      case Err(OperationalError(reason)) => Step(Raised(StorageError(reason)), t)
  }

  /** A new id adds exactly one row, built from the message and stamped by the store, and changes no other row. */
  lemma CreatedAddsOneRow(t: Table, m: MessageDict, utcNow: string, fault: Option<string>)
    requires Insert(t, m, utcNow, fault).outcome == Returned(Created)
    ensures var t' := Insert(t, m, utcNow, fault).table;
      && t'.Keys == t.Keys + {m["message_id"]}
      && |t'| == |t| + 1
      && BuildRow(m, utcNow).Ok?
      && t'[m["message_id"]] == BuildRow(m, utcNow).value
      && t'[m["message_id"]].createdAt == Stamp(utcNow)
  {
  }

  /**
    `created_at` never comes from the caller: a `created_at` field in the
    message (or any other field the INSERT does not read) makes no difference.
  */
  lemma CallerFieldsIgnored(m: MessageDict, key: string, value: string, utcNow: string)
    requires key !in RequiredKeys && key != TextKey
    ensures BuildRow(m[key := value], utcNow) == BuildRow(m, utcNow)
  {
  }

  /**
    The store: the `messages` table, changed in place by `insert_message`.
    The connection opened and closed around each call is not modelled.
  */
  class MessageStore {
    var rows: Table

    ghost predicate Valid()
      reads this
    {
      WellKeyed(rows)
    }

    /** A store opened on the database's current table, whatever rows it already holds. */
    constructor (existing: Table)
      requires WellKeyed(existing)
      ensures Valid() && rows == existing
    {
      rows := existing;
    }

    /** `insert_message(message)`, with the clock and any engine failure as parameters. */
    method InsertMessage(message: MessageDict, utcNow: string, fault: Option<string>) returns (outcome: Outcome)
      requires Valid()
      modifies this
      ensures Valid()
      ensures Step(outcome, rows) == Insert(old(rows), message, utcNow, fault)
      ensures outcome == Returned(Created) ==>
                && message["message_id"] !in old(rows)
                && rows.Keys == old(rows).Keys + {message["message_id"]}
                && rows[message["message_id"]].createdAt == Stamp(utcNow)
      ensures outcome == Returned(Duplicate) ==> message["message_id"] in old(rows) && rows == old(rows)
      ensures outcome.Raised? ==> rows == old(rows)
    {
      var row: Row;
      match BuildRow(message, utcNow) {
        case Err(e) =>
          return Raised(e);
        case Ok(r) =>
          row := r;
      }
      var written := ExecuteInsert(rows, row, fault);
      match written {
        case Ok(committed) =>
          rows := committed;
          outcome := Returned(Created);
        case Err(IntegrityError) =>
          outcome := Returned(Duplicate);
        case Err(OperationalError(reason)) =>
          outcome := Raised(StorageError(reason));
      }
    }
  }
}
