/** The writes against tableb: `INSERT ... ON CONFLICT (id) DO UPDATE`
    (an upsert keyed by `id`) and `DELETE ... WHERE id = ...`, and the
    effect of one change event on the table. */
module TableB {

  import opened Wrappers
  import opened JsonValues
  import opened RowTransform
  import opened ChangeEvents

  /** tableb, from primary key to row. */
  type Table = map<Json, Row>

  /** What the primary key guarantees: every row is stored under its own
      `id`, and no key is NULL. */
  predicate Keyed(t: Table) {
    forall k :: k in t ==> k != JNull && t[k].id == k
  }

  /** `insert_to_tableb(data)`: transform, then insert or overwrite the row
      with that `id`. A row whose `id` is NULL violates the primary key. */
  function Upserted(t: Table, data: Json): (r: Result<Table, Fault>)
    ensures r.Success? ==> Transform(data).Success? && Transform(data).value.id != JNull
    ensures r.Failure? && Transform(data).Success? ==> r.error == NullKey
  {
    match Transform(data)
    case Failure(f) => Failure(f)
    case Success(row) => if row.id == JNull then Failure(NullKey) else Success(t[row.id := row])
  }

  /** `delete_from_tableb(data)`: remove the row whose `id` is `data.get('id')`.
      A row image that is not an object raises on `.get`; a NULL id matches
      no row (`id = NULL` is never true in SQL). */
  function Deleted(t: Table, data: Json): (r: Result<Table, Fault>)
    ensures r.Failure? <==> !data.JObj?
    ensures r.Success? ==> r.value.Keys <= t.Keys
  {
    match data
    case JObj(m) =>
      var id := Get(m, "id", JNull);
      Success(if id == JNull then t else t - {id})
    case _ => Failure(NotAnObject)
  }

  /** Each stage catches its own exceptions: a failed write leaves the table as it was. */
  function Committed(t: Table, r: Result<Table, Fault>): Table {
    if r.Success? then r.value else t
  }

  /** The effect of one change event on the table. Update upserts its after
      image and never looks at its before image. */
  function Apply(t: Table, e: ChangeEvent): Table {
    match e
    case Create(after) => Committed(t, Upserted(t, after))
    case Update(_, after) => Committed(t, Upserted(t, after))
    case Delete(before) => Committed(t, Deleted(t, before))
    case Unknown => t
  }

  /** `process_change_event(message)` on the table. */
  function ProcessMessage(t: Table, message: Json): Table {
    Apply(t, Decode(message))
  }

  /** The `id` a row image names, null when it names none. */
  function IdOf(image: Json): Json {
    if image.JObj? then Get(image.fields, "id", JNull) else JNull
  }

  /** Whether an event may write the row with key `k`. */
  predicate Touches(e: ChangeEvent, k: Json) {
    match e
    case Create(after) => IdOf(after) == k
    case Update(_, after) => IdOf(after) == k
    case Delete(before) => IdOf(before) == k
    case Unknown => false
  }

  /** Two tables agree on key `k`. */
  predicate SameAt(t: Table, u: Table, k: Json) {
    (k in t <==> k in u) && (k in t ==> t[k] == u[k])
  }

  /** Every event keeps the primary-key invariant. */
  lemma ApplyKeepsKeyed(t: Table, e: ChangeEvent)
    requires Keyed(t)
    ensures Keyed(Apply(t, e))
  {
  }

  /** A create event whose after image transforms to `row` with a non-null
      `id` maps that `id` to `row` and leaves every other key as it was. */
  lemma CreateUpserts(t: Table, after: Json)
    requires Transform(after).Success? && Transform(after).value.id != JNull
    ensures var row := Transform(after).value;
      var u := Apply(t, Create(after));
      u.Keys == t.Keys + {row.id} && u[row.id] == row &&
      forall k :: k in t && k != row.id ==> u[k] == t[k]
  {
  }

  /** A create event whose transform raises, or whose `id` is NULL, writes nothing. */
  lemma FailedCreateChangesNothing(t: Table, after: Json)
    requires Transform(after).Failure? || Transform(after).value.id == JNull
    ensures Apply(t, Create(after)) == t
  {
  }

  /** Applying a create event twice gives the table that applying it once
      gives: the second write overwrites, it does not duplicate. */
  lemma CreateIdempotent(t: Table, after: Json)
    ensures Apply(Apply(t, Create(after)), Create(after)) == Apply(t, Create(after))
  {
  }

  /** An update event has the effect of a create event with the same after
      image, whatever its before image. */
  lemma UpdateIsCreate(t: Table, before: Json, after: Json)
    ensures Apply(t, Update(before, after)) == Apply(t, Create(after))
  {
  }

  /** A delete event removes the key its before image names and nothing
      else; when that key is absent the table is unchanged. */
  lemma DeleteRemoves(t: Table, before: Json)
    requires Keyed(t) && before.JObj?
    ensures Apply(t, Delete(before)) == t - {IdOf(before)}
    ensures IdOf(before) !in t ==> Apply(t, Delete(before)) == t
  {
  }

  /** Deleting twice is deleting once. */
  lemma DeleteIdempotent(t: Table, before: Json)
    ensures Apply(Apply(t, Delete(before)), Delete(before)) == Apply(t, Delete(before))
  {
  }

  /** Every message, delivered twice in a row, has the effect of one delivery. */
  lemma ProcessMessageIdempotent(t: Table, message: Json)
    ensures ProcessMessage(ProcessMessage(t, message), message) == ProcessMessage(t, message)
  {
  }

  /** An event that does not name key `k` leaves the row at `k` as it was. */
  lemma ApplyFrame(t: Table, e: ChangeEvent, k: Json)
    requires !Touches(e, k)
    ensures SameAt(t, Apply(t, e), k)
  {
  }

  /** At the message level: a message whose payload has op `u` writes what
      the same message with op `c` in its payload writes. */
  lemma UpdateMessageIsCreateMessage(t: Table, m: map<string, Json>, p: map<string, Json>)
    requires "payload" in m && m["payload"] == JObj(p) && OpOf(p) == JStr("u")
    ensures ProcessMessage(t, JObj(m)) == ProcessMessage(t, JObj(m["payload" := JObj(p["op" := JStr("c")])]))
  {
  }

  /** The before image in the payload of an update message has no influence
      on the result. */
  lemma UpdateIgnoresBefore(t: Table, m: map<string, Json>, p: map<string, Json>, b1: Json, b2: Json)
    requires "payload" in m && m["payload"] == JObj(p) && OpOf(p) == JStr("u")
    ensures ProcessMessage(t, JObj(m["payload" := JObj(p["before" := b1])]))
         == ProcessMessage(t, JObj(m["payload" := JObj(p["before" := b2])]))
  {
  }

  /** A message that is not an object, has no payload or a payload that is
      not an object, or whose op is other than `c`, `u` or `d` (missing
      included), leaves the table unchanged. */
  lemma IgnoredMessageChangesNothing(t: Table, message: Json)
    requires !message.JObj? || "payload" !in message.fields || !message.fields["payload"].JObj?
          || OpOf(message.fields["payload"].fields) !in {JStr("c"), JStr("u"), JStr("d")}
    ensures ProcessMessage(t, message) == t
  {
  }

  /** A create or update message whose after image has a null `name` or a
      null `age` raises inside `insert_to_tableb` and writes nothing. */
  lemma NullFieldDropsEvent(t: Table, m: map<string, Json>, p: map<string, Json>, row: map<string, Json>)
    requires "payload" in m && m["payload"] == JObj(p)
    requires OpOf(p) == JStr("c") || OpOf(p) == JStr("u")
    requires "after" in p && p["after"] == JObj(row)
    requires ("name" in row && row["name"] == JNull) || ("age" in row && row["age"] == JNull)
    ensures ProcessMessage(t, JObj(m)) == t
  {
  }

  /** A delete whose before image is not an object (null included) raises on
      `.get` inside `delete_from_tableb`; the exception is caught and the
      table is unchanged. */
  lemma FailedDeleteChangesNothing(t: Table, before: Json)
    requires !before.JObj?
    ensures Apply(t, Delete(before)) == t
  {
  }

  /** A delete message for a key the table does not hold changes nothing. */
  lemma DeleteOfAbsentKeyChangesNothing(t: Table, m: map<string, Json>, p: map<string, Json>)
    requires Keyed(t) && "payload" in m && m["payload"] == JObj(p) && OpOf(p) == JStr("d")
    requires IdOf(Get(p, "before", EmptyObject)) !in t
    ensures ProcessMessage(t, JObj(m)) == t
  {
  }
}
