# Webhook message store and startup configuration: a Dafny model

This project models the two pieces of logic in a small webhook-ingestion
service.

- **The idempotent message insert** (`insert_message`, app/storage.py). It
  writes one row into the `messages` table, keyed by `message_id`. The
  `created_at` stamp comes from the store's clock. A new id is committed and
  the call returns `"created"`. An `IntegrityError` from SQLite is caught and
  the call returns `"duplicate"`, with nothing committed. Any other exception
  propagates to the caller.
- **The startup configuration check** (`validate_config`, app/config.py). It
  fails when `WEBHOOK_SECRET` is unset or empty. It then fails when
  `DATABASE_URL` is unset or empty. Otherwise it succeeds. `LOG_LEVEL`
  defaults to `"INFO"` and takes no part in the check.

Layout:

- `wrappers.dfy` (module `Wrappers`): `Option` and `Result`.
- `config.dfy` (module `Config`): the settings, the environment lookup and
  `ValidateConfig`.
- `table.dfy` (module `MessageTable`): the row record, the table as a map
  from `message_id` to row, and the effect of one constrained INSERT and
  commit (`ExecuteInsert`).
- `storage.dfy` (module `Storage`): building the INSERT's parameters from the
  caller's message, the specification function `Insert` of one call, and the
  class `MessageStore` whose `rows` field `InsertMessage` updates in place.
- `idempotence.dfy` (module `Idempotence`): sequences of calls. Stored rows
  are permanent, an id is created at most once, one row is added per
  `"created"`, and, with no engine failure, repeating an insert leaves the
  state that one insert leaves.

Modelling choices:

- The message is the Python dictionary, a `map<string, string>`. Reading
  `message["message_id"]`, `["from"]`, `["to"]` or `["ts"]` raises `KeyError`
  when the field is absent. The model raises `KeyError` for the first missing
  field, in the order the parameter tuple is evaluated. `text` is read with
  `.get`, so an absent `text` is stored as null (`None`).
- The clock (`datetime.utcnow().isoformat()`) is the parameter `utcNow`. The
  stored `created_at` is `utcNow + "Z"`.
- An engine failure other than an integrity error (a locked database, an I/O
  error, a failing commit) is the parameter `fault`. It is raised as a
  storage error, and nothing is committed. The model lets such a failure take
  precedence over the uniqueness check.
- The uniqueness constraint on `message_id` is the map's key discipline
  (`WellKeyed`). That constraint lives in app/models, which is not part of
  this model.
- The environment read by `os.getenv` is the map parameter `env`.
- The two strings `insert_message` returns are `Status.Text()` of the returned
  status. The text of each `RuntimeError` raised by `validate_config` is
  `ErrorMessage` of the error.

## Model

| member | source | states |
|---|---|---|
| `Config.Getenv` | app/config.py:4-6 | a variable's value when it is set, and `None` exactly when it is not |
| `Config.LoadSettings` | app/config.py:4-6 | the database URL and secret are the environment's values or `None`; the log level is the environment's value, or `"INFO"` when `LOG_LEVEL` is unset |
| `Config.ValidateConfig` | app/config.py:8-12 | success exactly when both the secret and the database URL are non-empty; the secret error exactly when the secret is unset or empty; the database-URL error exactly when the secret is set but the URL is unset or empty |
| `Config.ValidateEnvironment` | app/config.py:4-12 | validation of the loaded settings succeeds exactly when both `WEBHOOK_SECRET` and `DATABASE_URL` are in the environment with non-empty values |
| `Config.ValidationErrorMessage` | app/config.py:9-12 | the check fails exactly when the secret or the URL is unset or empty, and the `RuntimeError` message (`ErrorMessage`) is "WEBHOOK_SECRET is not set" when the secret is missing, otherwise "DATABASE_URL is not set" |
| `Config.SecretReportedFirst` | app/config.py:9-12 | when both values are missing, the secret error is the one reported |
| `Config.EmptyIsUnset` | app/config.py:9-12 | for every other value, an empty secret or URL fails exactly like an unset one |
| `Config.LogLevelPlaysNoPart` | app/config.py:6-12 | setting `LOG_LEVEL` to any value, or unsetting it, does not change the validation result |
| `MessageTable.ExecuteInsert` | app/storage.py:11-22 | the write succeeds exactly when there is no engine failure and the id is new; it then adds exactly that one row and keeps every other row; an existing id gives an integrity error; any engine failure is passed on |
| `Storage.FirstMissing` | app/storage.py:14-18 | `None` exactly when all the keys are present; otherwise the first absent key in left-to-right order |
| `Storage.Status.Text` | app/storage.py:23-25 | the returned string is `"created"` or `"duplicate"`, and it is `"created"` exactly for the created status |
| `Storage.RequiredFieldsAreRequiredKeys` | app/storage.py:15-18 | a message has its required fields exactly when every key the INSERT reads with `message[...]` is present |
| `Storage.Stamp` | app/storage.py:20 | the stamp is the clock text followed by one trailing `Z` |
| `Storage.BuildRow` | app/storage.py:14-21 | a row exactly when the four required fields are present; it copies `message_id`, `from`, `to` and `ts`; `text` is `None` when absent; `created_at` is the store's stamp; otherwise `KeyError` for the first missing required field |
| `Storage.Insert` | app/storage.py:10-25 | `created` exactly when the message is complete, the engine does not fail and the id is new; `duplicate` exactly when the id is already stored; an exception otherwise; the table is unchanged except on `created`; existing rows are never altered; the key discipline is kept |
| `Storage.CreatedAddsOneRow` | app/storage.py:11-23 | on `created`, exactly one row is added, under the message's id, equal to the row built from the message and stamped with the clock |
| `Storage.CallerFieldsIgnored` | app/storage.py:15-20 | a field the INSERT does not read, such as a caller-supplied `created_at`, makes no difference to the stored row or the error |
| `Storage.MessageStore.constructor` | app/storage.py:7 | the store opens on the database's current table, whatever rows it already holds, and that table is well keyed |
| `Storage.MessageStore.InsertMessage` | app/storage.py:6-27 | the returned outcome and new table are those of `Insert`; `created` adds the new id's row stamped by the store; `duplicate` and a raised exception leave the table exactly as it was |
| `Idempotence.Replay` | app/storage.py:6-27 | one outcome per call, in order |
| `Idempotence.RowsArePermanent` | app/storage.py:11-25 | over any sequence of calls, every row stored before is still stored afterwards, unchanged (rows are never updated or deleted) |
| `Idempotence.ReplayKeepsKeys` | app/storage.py:11-21 | over any sequence of calls, every row stays stored under its own `message_id` |
| `Idempotence.OneRowPerCreated` | app/storage.py:11-25 | the final table has exactly one more row per call that returned `created` |
| `Idempotence.CreatedIdWasAbsent` | app/storage.py:11-23 | a call that returned `created` carried an id not stored at the start of the sequence |
| `Idempotence.CreatedAtMostOnce` | app/storage.py:11-25 | two calls that both return `created` carry different ids |
| `Idempotence.StoredIdIsNoOp` | app/storage.py:24-25 | once an id is stored, calls with that id, whatever their other fields, never return `created` and leave the table unchanged |
| `Idempotence.RepeatedInsertIsIdempotent` | app/storage.py:11-25 | with no engine failure, inserting the same message any number of times leaves the table that one insert leaves; every repeat of a complete message returns `duplicate` |
| `Idempotence.RaisesOnlyOnFault` | app/storage.py:22-25 | a complete message with no engine failure always returns a status, never an exception |
| `Idempotence.RaisesWithoutFields` | app/storage.py:15-18 | a message missing a required field raises on every attempt and never changes the table |
| `Idempotence.SecondInsertKeepsFirstRow` | app/storage.py:11-25 | after a first insert creates a row, a second insert with the same id returns `duplicate`, and the row keeps the first message's fields and `created_at` |

## Left out

- The connection lifecycle (`get_connection`, the cursor, `close` in `finally`). This is library I/O. Only its effect on the table is modelled: a commit on `created`, no commit otherwise.
- Concurrent inserts of the same `message_id`. Their atomicity rests on the storage engine. `Idempotence.CreatedAtMostOnce` states the sequential counterpart.
- The schema and its constraints live in app/models, which is not part of this model. The source catches every `sqlite3.IntegrityError`, not only the uniqueness violation. If the schema declares other constraints (NOT NULL, for example), their violations would also be returned as `"duplicate"`. The model's table has only the uniqueness constraint on `message_id`. Under that schema the only integrity error is the uniqueness violation, so catching every `IntegrityError` and catching only that one coincide.
- Message values are strings. The source's dictionary can hold values of any type. A JSON `null` for `text` is modelled as an absent `text`; both store null.
- Idempotence.RepeatedInsertIsIdempotent: covers repeats with no engine failure only. If an earlier attempt fails in the engine, a later attempt can still create the row, so the table then differs from the table after the first attempt.
- `datetime.utcnow()` and the engine's failures are inputs (`utcNow`, `fault`). The ISO-8601 format of the clock text is not modelled.
- `os.getenv` is a lookup in the `env` map parameter.
- app/logging_utils.py `log_request`. It writes a JSON record with a random uuid and the wall-clock time to standard output. It is an observability sink with no invariant.
- app/main.py: the FastAPI app and its startup hook. The hook calls `validate_config` and then `init_db`. `init_db` lives in app/models, which is not part of this model; `MessageStore.constructor` opens the store on whatever well-keyed table the database holds.
- HMAC signature verification, payload validation, listing with pagination, and statistics. None of these is in the source files modelled here.
