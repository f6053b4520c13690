# CDC processor: transform-and-apply pipeline

A Dafny model of the core of `CDCProcessor` in `python-app/cdc_processor.py`.
The processor reads Debezium change events for `tablea` from Kafka, transforms
each row image and writes the result to `tableb`. This model covers:

- the dispatch of `process_change_event` on `payload.op` (`c`, `u`, `d` or anything else);
- the row transform: `id` and `email` copied, `name` becomes `PROCESSED_` + upper case, `age` + 1;
- the writes: an upsert keyed by `id` (`INSERT ... ON CONFLICT (id) DO UPDATE`) and `DELETE ... WHERE id = ...`;
- per-stage failure isolation: every `try` swallows its exception, so a failing event writes nothing;
- the consume loop of `run`, which skips messages whose value is falsy and processes the rest in order.

Modules, one file each:

- `Wrappers` (wrappers.dfy) holds `Option` and `Result`.
- `JsonValues` (json.dfy) holds decoded JSON values (`Json`) and the Python behaviour the code relies on. That covers `dict.get` with a default, truthiness, and the integer that `x + 1` uses.
- `RowTransform` (transform.dfy) holds the transform, ASCII `upper`, and the `Fault`s that make a stage raise.
- `ChangeEvents` (events.dfy) holds `Decode`, which turns a message into `Create`, `Update`, `Delete` or `Unknown`.
- `TableB` (table.dfy) models tableb as `map<Json, Row>` from primary key to row. It holds the upsert and delete writes, the effect of one event (`Apply`, `ProcessMessage`), and the primary-key invariant `Keyed`.
- `Stream` (stream.dfy) holds the consume loop as a left fold (`Consume`) over `Option<Json>` messages. `None` is an empty Kafka value.
- `Processor` (processor.dfy) holds the class `CdcProcessor`. Its field `tableB` is the table, and its methods update that field the way the Python methods execute SQL. Each method's postcondition equates the new table with the specification function applied to the old one.

Modelling decisions:

- A row field is absent, null, or a value. `data.get('name', '')` and `data.get('age', 0)` use the default only when the key is absent.
- A present `name` that is not a string raises on `.upper()`; null counts as not a string.
- A present `age` that is not a number raises on `+ 1`; null counts as not a number.
- A `bool` age counts as 0 or 1, so `True + 1 == 2`, as in Python.
- A raised transform is caught in `insert_to_tableb`, and nothing is written.
- A row image, payload or message that is not an object raises on `.get`. That exception is caught by the stage that called `.get`.
- `id` may be missing. `data.get('id')` then yields null. Because `id` is tableb's primary key (NOT NULL), the upsert of such a row is taken to fail, so nothing is written.
- A delete with a null id matches no row, because `id = NULL` is never true in SQL.
- `processed_at` is not modelled. It is set by `NOW()` at write time.

## Model

| member | source | states |
|---|---|---|
| `RowTransform.UpperChar` | python-app/cdc_processor.py:159 | no upper-cased character is a lower-case ASCII letter |
| `RowTransform.Upper` | python-app/cdc_processor.py:159 | `upper()` keeps the length and maps each character by `UpperChar` |
| `RowTransform.UpperIdempotent` | python-app/cdc_processor.py:159 | upper-casing twice equals upper-casing once |
| `RowTransform.Transform` | python-app/cdc_processor.py:157-163 | a successful transform comes from an object row image, and its name starts with `PROCESSED_` |
| `RowTransform.TransformFailsIff` | python-app/cdc_processor.py:157-163 | the transform raises exactly when the image is not an object, or a present `name` is not a string, or a present `age` is neither int nor bool (`+ 1` at line 161 accepts only those) |
| `RowTransform.NullNameOrAgeFails` | python-app/cdc_processor.py:159-161 | a present but null `name` or `age` makes the transform raise |
| `RowTransform.TransformName` | python-app/cdc_processor.py:159 | the name is `PROCESSED_` + upper(source name), and exactly `PROCESSED_` when `name` is absent |
| `RowTransform.TransformAge` | python-app/cdc_processor.py:161 | the age is the source age + 1 (a bool counting 0 or 1, as Python's `True + 1 == 2`), and 1 when `age` is absent |
| `RowTransform.TransformCopies` | python-app/cdc_processor.py:158-160 | `id` and `email` are copied unchanged (a present null stays null), and are null when absent |
| `RowTransform.TransformedNameIsUpper` | python-app/cdc_processor.py:159 | after the prefix, the name holds no lower-case ASCII letter |
| `RowTransform.AliceScenario` | python-app/cdc_processor.py:157-163 | `{id:1, name:"alice", email:"a@x.com", age:30}` becomes `PROCESSED_ALICE`, age 31, same id and email |
| `ChangeEvents.Decode` | python-app/cdc_processor.py:136-148 | an action is chosen only for an object message whose payload (default `{}`) is an object |
| `ChangeEvents.DecodeReadsOnlyPayload` | python-app/cdc_processor.py:136 | two object messages with the same `payload` entry decode alike: the envelope's other keys, such as `schema`, are never read |
| `ChangeEvents.DecodeOps` | python-app/cdc_processor.py:139-148 | in any object message whose `payload` is an object, op `c` selects Create with the after image, `u` selects Update with both images, `d` selects Delete with the before image; a missing image defaults to `{}` (`dict.get` defaults only for an absent key) |
| `ChangeEvents.DecodeUnknownIff` | python-app/cdc_processor.py:137-148 | any object message whose `payload` is an object leads to no action exactly when its op (missing included) is not `c`, `u` or `d` |
| `ChangeEvents.MalformedIsUnknown` | python-app/cdc_processor.py:136-151 | a non-object message, a missing payload and a non-object payload all lead to no action |
| `ChangeEvents.FalsyIsUnknown` | python-app/cdc_processor.py:216 | every falsy JSON value leads to no action |
| `TableB.Upserted` | python-app/cdc_processor.py:153-179 | a successful upsert has a successful transform with a non-null id; a failure after a successful transform is the null primary key |
| `TableB.Deleted` | python-app/cdc_processor.py:186-195 | the delete fails exactly for a row image that is not an object, and never adds keys |
| `TableB.ApplyKeepsKeyed` | python-app/cdc_processor.py:166-175 | every event keeps each row stored under its own non-null `id` |
| `TableB.CreateUpserts` | python-app/cdc_processor.py:166-175 | a create maps `id` to the transformed after image, adds only that key and leaves every other row unchanged |
| `TableB.FailedCreateChangesNothing` | python-app/cdc_processor.py:178-179 | a create whose transform raises or whose id is null leaves the table unchanged |
| `TableB.CreateIdempotent` | python-app/cdc_processor.py:166-175 | applying a create twice equals applying it once |
| `TableB.UpdateIsCreate` | python-app/cdc_processor.py:181-184 | an update has the effect of a create with the same after image, whatever the before image |
| `TableB.DeleteRemoves` | python-app/cdc_processor.py:186-192 | a delete on a keyed table removes exactly the named key; a delete of an absent key leaves the table unchanged |
| `TableB.DeleteIdempotent` | python-app/cdc_processor.py:186-192 | deleting twice equals deleting once |
| `TableB.ProcessMessageIdempotent` | python-app/cdc_processor.py:133-195 | any message processed twice in a row has the effect of one delivery |
| `TableB.ApplyFrame` | python-app/cdc_processor.py:166-191 | an event that does not name key `k` leaves the row at `k` as it was |
| `TableB.UpdateMessageIsCreateMessage` | python-app/cdc_processor.py:139-145 | any message whose payload has op `u` writes what the same message with op `c` writes |
| `TableB.UpdateIgnoresBefore` | python-app/cdc_processor.py:142-145 | in any update message, the before image in the payload does not affect the table |
| `TableB.IgnoredMessageChangesNothing` | python-app/cdc_processor.py:136-151 | an unknown or missing op, a missing or non-object payload, or a non-object message leaves the table unchanged |
| `TableB.NullFieldDropsEvent` | python-app/cdc_processor.py:157-179 | any create or update message whose after image has a present but null `name` or `age` leaves the table unchanged |
| `TableB.FailedDeleteChangesNothing` | python-app/cdc_processor.py:186-195 | a delete whose before image is not an object (null included) raises on `.get`, is caught, and leaves the table unchanged |
| `TableB.DeleteOfAbsentKeyChangesNothing` | python-app/cdc_processor.py:146-148 | any delete message for a key the table does not hold leaves the table unchanged |
| `Stream.SkippedMessageChangesNothing` | python-app/cdc_processor.py:215-218 | an empty or falsy message is skipped, and processing it would not change the table either |
| `Stream.FailedMessageIsTransparent` | python-app/cdc_processor.py:215-218 | a message that changes nothing (failed or ignored) does not stop the stream: the later messages give the table they would give without it |
| `Stream.ConsumeSnoc` | python-app/cdc_processor.py:215-218 | consuming one more message applies the loop body to the table reached so far |
| `Stream.ConsumeAppend` | python-app/cdc_processor.py:215-218 | consuming `s1 + s2` equals consuming `s1` and then `s2` |
| `Stream.ConsumeKeepsKeyed` | python-app/cdc_processor.py:215-218 | the primary-key invariant holds after any stream |
| `Stream.ConsumeFrame` | python-app/cdc_processor.py:215-218 | messages that do not name key `k` leave the row at `k` as it was |
| `Stream.LastUpsertWins` | python-app/cdc_processor.py:215-218 | after a successful create or update of `row`, and later messages that do not name `row.id`, the table holds `row` at `row.id` |
| `Stream.LastDeleteWins` | python-app/cdc_processor.py:215-218 | after a delete of `k`, and later messages that do not name `k`, no row has key `k` |
| `Stream.OrderingScenario` | python-app/cdc_processor.py:215-218 | Create(id=1, age=5), an empty message, then Update(id=1, age=10) leaves age 11 |
| `Stream.AliceEventScenario` | python-app/cdc_processor.py:136-175 | the create event `{schema: …, payload: {op: "c", after: alice}}` on an empty table leaves exactly the row PROCESSED_ALICE, a@x.com, age 31 under id 1 |
| `Stream.DeleteScenario` | python-app/cdc_processor.py:146-148 | a create of id 1 followed by a delete of id 1 leaves no row 1 |
| `Processor.CdcProcessor.constructor` | python-app/cdc_processor.py:124-127 | a processor connected to a keyed table holding the given rows |
| `Processor.CdcProcessor.InsertToTableB` | python-app/cdc_processor.py:153-179 | the new table is the committed upsert of the old table, and the key invariant is kept |
| `Processor.CdcProcessor.UpdateTableB` | python-app/cdc_processor.py:181-184 | the new table is the old one after an Update event, i.e. the upsert of the after image |
| `Processor.CdcProcessor.DeleteFromTableB` | python-app/cdc_processor.py:186-195 | the new table is the committed delete applied to the old table |
| `Processor.CdcProcessor.ProcessChangeEvent` | python-app/cdc_processor.py:133-151 | the source's branch on payload and op yields the table that `Decode` and `Apply` specify |
| `Processor.CdcProcessor.Run` | python-app/cdc_processor.py:215-218 | after the loop, the table is the left fold `Consume` of the messages over the old table |

## Left out

- Service readiness polling (`wait_for_services`, lines 31-68) is left out: unbounded retry loops over network probes and `time.sleep`, with no result to state.
- Connector registration (`setup_debezium_connector`, lines 73-122) is left out: REST calls. Kafka Connect executes the topic routing.
- The connection and consumer setup (lines 124-131, 204-210) is left out: the psycopg2 connection, autocommit, the Kafka consumer, its group and offsets. The constructor takes the table's initial rows instead.
- The UTF-8/JSON deserializer (line 207) is left out. Messages arrive already decoded as `Option<Json>`. A malformed message would make the deserializer raise during iteration, which ends the loop through the outer `except` (line 222). The model does not capture that.
- Database failures other than a NULL primary key are not modelled: lost connections, column type mismatches, integer overflow of the `age` column. The same holds for a NULL id ending up in the table, which the primary key rules out. Any write is taken to succeed once its key is non-null. SQL column typing and parameter binding are also left out.
- JSON floating-point numbers are not modelled. A float `age` would be `age + 1.0` in Python.
- `RowTransform.Upper`: does not model Python's full Unicode `str.upper` (for example `ß` becoming `SS`); only ASCII letters are upper-cased.
- `processed_at` (`NOW()`, lines 162, 168, 173) is not modelled: wall-clock time.
- Logging is not modelled, and neither is shutdown (`KeyboardInterrupt`, the `finally` that closes the consumer and the connection, lines 220-228).
