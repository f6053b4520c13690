/** The dispatch of `process_change_event`: which row image of a decoded
    change-event envelope is acted on, and how. */
module ChangeEvents {

  import opened JsonValues

  /** What `process_change_event` does with one message. Update keeps its
      before image, which the apply step then ignores. */
  datatype ChangeEvent =
    | Create(after: Json)
    | Update(before: Json, after: Json)
    | Delete(before: Json)
    | Unknown   // no branch taken: unknown or missing op, or a `.get` that raised

  /** `payload = message.get('payload', {})`, `op = payload.get('op')`, then
      the three-way branch on `op`; a missing row image defaults to `{}`.
      A message or a payload that is not an object raises on `.get`, and the
      outer `try` turns that into no action. */
  function Decode(message: Json): (e: ChangeEvent)
    ensures !e.Unknown? ==> message.JObj?
    ensures !e.Unknown? ==> Get(message.fields, "payload", EmptyObject).JObj?
  {
    match message
    case JObj(m) =>
      (match Get(m, "payload", EmptyObject)
       case JObj(p) =>
         var op := Get(p, "op", JNull);
         if op == JStr("c") then Create(Get(p, "after", EmptyObject))
         else if op == JStr("u") then Update(Get(p, "before", EmptyObject), Get(p, "after", EmptyObject))
         else if op == JStr("d") then Delete(Get(p, "before", EmptyObject))
         else Unknown
       case _ => Unknown)
    case _ => Unknown
  }

  /** The op code of a payload, as `payload.get('op')` reads it. */
  function OpOf(p: map<string, Json>): Json {
    Get(p, "op", JNull)
  }

  /** Only the `payload` entry of a message matters: the other keys of the
      Debezium envelope (such as `schema`) are never read. */
  lemma DecodeReadsOnlyPayload(m1: map<string, Json>, m2: map<string, Json>)
    requires "payload" in m1 && "payload" in m2 && m1["payload"] == m2["payload"]
    ensures Decode(JObj(m1)) == Decode(JObj(m2))
  {
  }

  /** In a message whose `payload` is the object `p`, op `c`, `u` and `d`
      select Create, Update and Delete, with the row images found in the
      payload and `{}` for a missing one. */
  lemma DecodeOps(m: map<string, Json>, p: map<string, Json>)
    requires "payload" in m && m["payload"] == JObj(p)
    ensures OpOf(p) == JStr("c") ==> Decode(JObj(m)) == Create(Get(p, "after", EmptyObject))
    ensures OpOf(p) == JStr("u") ==>
      Decode(JObj(m)) == Update(Get(p, "before", EmptyObject), Get(p, "after", EmptyObject))
    ensures OpOf(p) == JStr("d") ==> Decode(JObj(m)) == Delete(Get(p, "before", EmptyObject))
  {
  }

  /** A message whose `payload` is an object leads to an action exactly when
      its op is `c`, `u` or `d`: any other op, and a missing one, leaves the
      message without effect. */
  lemma DecodeUnknownIff(m: map<string, Json>, p: map<string, Json>)
    requires "payload" in m && m["payload"] == JObj(p)
    ensures Decode(JObj(m)).Unknown? <==> OpOf(p) !in {JStr("c"), JStr("u"), JStr("d")}
  {
  }

  /** A message with no `payload`, a payload that is not an object (null
      included), and a message that is not an object all decode to Unknown. */
  lemma MalformedIsUnknown(message: Json)
    requires !message.JObj?
          || "payload" !in message.fields
          || !message.fields["payload"].JObj?
    ensures Decode(message).Unknown?
  {
  }

  /** A value that is falsy in Python (null, false, 0, "", [], {}) decodes to
      Unknown, so the run loop's `if message.value` skips only messages that
      would have had no effect anyway. */
  lemma FalsyIsUnknown(message: Json)
    requires !Truthy(message)
    ensures Decode(message).Unknown?
  {
  }
}
