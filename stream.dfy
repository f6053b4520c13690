/** The consume loop of `run`: every message whose value is truthy is
    handed to `process_change_event`, strictly in stream order. */
module Stream {

  import opened Wrappers
  import opened JsonValues
  import opened RowTransform
  import opened ChangeEvents
  import opened TableB

  /** One delivered message: `None` for an empty Kafka value (the
      deserializer yields None), otherwise the decoded JSON. */
  type Message = Option<Json>

  /** The loop body for one message: `if message.value:` process it. */
  function Deliver(t: Table, message: Message): Table {
    if message.Some? && Truthy(message.value) then ProcessMessage(t, message.value) else t
  }

  /** The table after the messages, delivered in order: a left fold. */
  function Consume(t: Table, stream: seq<Message>): Table
    decreases |stream|
  {
    if stream == [] then t else Consume(Deliver(t, stream[0]), stream[1..])
  }

  /** Whether a message may write the row with key `k`. */
  predicate MessageTouches(message: Message, k: Json) {
    message.Some? && Truthy(message.value) && Touches(Decode(message.value), k)
  }

  /** A skipped message (empty, null or otherwise falsy) has no effect, and
      neither would processing it: the truthiness test only saves work. */
  lemma SkippedMessageChangesNothing(t: Table, message: Message)
    requires message.None? || !Truthy(message.value)
    ensures Deliver(t, message) == t
    ensures message.Some? ==> ProcessMessage(t, message.value) == t
  {
  }

  /** A message that fails or is ignored does not stop the stream: the
      messages after it are processed as if it had not been delivered. */
  lemma FailedMessageIsTransparent(t: Table, message: Json, rest: seq<Message>)
    requires ProcessMessage(t, message) == t
    ensures Consume(t, [Some(message)] + rest) == Consume(t, rest)
  {
    assert ([Some(message)] + rest)[1..] == rest;
  }

  /** Consuming a stream and then one more message. */
  lemma {:induction false} ConsumeSnoc(t: Table, stream: seq<Message>, message: Message)
    ensures Consume(t, stream + [message]) == Deliver(Consume(t, stream), message)
    decreases |stream|
  {
    if stream == [] {
      assert [message][1..] == [];
    } else {
      assert (stream + [message])[1..] == stream[1..] + [message];
      ConsumeSnoc(Deliver(t, stream[0]), stream[1..], message);
    }
  }

  /** Consuming two streams one after the other is consuming their concatenation. */
  lemma {:induction false} ConsumeAppend(t: Table, s1: seq<Message>, s2: seq<Message>)
    ensures Consume(t, s1 + s2) == Consume(Consume(t, s1), s2)
    decreases |s1|
  {
    if s1 != [] {
      assert (s1 + s2)[1..] == s1[1..] + s2;
      ConsumeAppend(Deliver(t, s1[0]), s1[1..], s2);
    } else {
      assert s1 + s2 == s2;
    }
  }

  /** The primary-key invariant holds after any stream. */
  lemma {:induction false} ConsumeKeepsKeyed(t: Table, stream: seq<Message>)
    requires Keyed(t)
    ensures Keyed(Consume(t, stream))
    decreases |stream|
  {
    if stream != [] {
      if stream[0].Some? && Truthy(stream[0].value) {
        ApplyKeepsKeyed(t, Decode(stream[0].value));
      }
      ConsumeKeepsKeyed(Deliver(t, stream[0]), stream[1..]);
    }
  }

  /** Messages that do not name key `k` leave the row at `k` as it was. */
  lemma {:induction false} ConsumeFrame(t: Table, stream: seq<Message>, k: Json)
    requires forall j :: 0 <= j < |stream| ==> !MessageTouches(stream[j], k)
    ensures SameAt(t, Consume(t, stream), k)
    decreases |stream|
  {
    if stream != [] {
      assert !MessageTouches(stream[0], k);
      if stream[0].Some? && Truthy(stream[0].value) {
        ApplyFrame(t, Decode(stream[0].value), k);
      }
      ConsumeFrame(Deliver(t, stream[0]), stream[1..], k);
    }
  }

  /** Last write wins: after a create or update that writes `row`, followed
      by messages none of which names `row.id`, the table holds `row` there. */
  lemma LastUpsertWins(t: Table, before: seq<Message>, message: Json, after: seq<Message>)
    requires Decode(message).Create? || Decode(message).Update?
    requires Transform(Decode(message).after).Success? && Transform(Decode(message).after).value.id != JNull
    requires forall j :: 0 <= j < |after| ==> !MessageTouches(after[j], IdOf(Decode(message).after))
    ensures var row := Transform(Decode(message).after).value;
      var u := Consume(t, before + [Some(message)] + after);
      row.id in u && u[row.id] == row
  {
    var e := Decode(message);
    if !Truthy(message) {
      FalsyIsUnknown(message);
    }
    var row := Transform(e.after).value;
    var mid := Consume(t, before + [Some(message)]);
    ConsumeSnoc(t, before, Some(message));
    assert mid == Apply(Consume(t, before), e);
    assert row.id in mid && mid[row.id] == row;
    assert IdOf(e.after) == row.id;
    ConsumeAppend(t, before + [Some(message)], after);
    ConsumeFrame(mid, after, row.id);
  }

  /** A delete of key `k` followed by messages none of which names `k`
      leaves no row at `k`. */
  lemma LastDeleteWins(t: Table, before: seq<Message>, message: Json, after: seq<Message>)
    requires Keyed(t)
    requires Decode(message).Delete? && Decode(message).before.JObj?
    requires forall j :: 0 <= j < |after| ==> !MessageTouches(after[j], IdOf(Decode(message).before))
    ensures IdOf(Decode(message).before) !in Consume(t, before + [Some(message)] + after)
  {
    var e := Decode(message);
    if !Truthy(message) {
      FalsyIsUnknown(message);
    }
    var k := IdOf(e.before);
    var mid := Consume(t, before + [Some(message)]);
    ConsumeSnoc(t, before, Some(message));
    ConsumeKeepsKeyed(t, before);
    DeleteRemoves(Consume(t, before), e.before);
    assert k !in mid;
    ConsumeAppend(t, before + [Some(message)], after);
    ConsumeFrame(mid, after, k);
  }

  /** Create(id=1, age=5) followed by Update(id=1, age=10) leaves age 11. */
  lemma OrderingScenario()
    ensures var create := JObj(map["payload" := JObj(map["op" := JStr("c"),
                                     "after" := JObj(map["id" := JInt(1), "age" := JInt(5)])])]);
      var update := JObj(map["payload" := JObj(map["op" := JStr("u"),
                                     "before" := JObj(map["id" := JInt(1), "age" := JInt(5)]),
                                     "after" := JObj(map["id" := JInt(1), "age" := JInt(10)])])]);
      var u := Consume(map[], [Some(create), None, Some(update)]);
      JInt(1) in u && u[JInt(1)].age == 11
  {
    var create := JObj(map["payload" := JObj(map["op" := JStr("c"),
                           "after" := JObj(map["id" := JInt(1), "age" := JInt(5)])])]);
    var update := JObj(map["payload" := JObj(map["op" := JStr("u"),
                           "before" := JObj(map["id" := JInt(1), "age" := JInt(5)]),
                           "after" := JObj(map["id" := JInt(1), "age" := JInt(10)])])]);
    var a10 := JObj(map["id" := JInt(1), "age" := JInt(10)]);
    assert Decode(update) == Update(JObj(map["id" := JInt(1), "age" := JInt(5)]), a10);
    assert "name" !in a10.fields && "email" !in a10.fields;
    assert Prefix + Upper("") == Prefix;
    assert Transform(a10) == Success(Row(JInt(1), Prefix, JNull, 11));
    LastUpsertWins(map[], [Some(create), None], update, []);
    assert [Some(create), None] + [Some(update)] + [] == [Some(create), None, Some(update)];
  }

  /** A create followed by a delete of the same key leaves the table without it. */
  lemma DeleteScenario(t: Table)
    requires Keyed(t)
    ensures var create := JObj(map["payload" := JObj(map["op" := JStr("c"),
                                     "after" := JObj(map["id" := JInt(1), "name" := JStr("alice")])])]);
      var delete := JObj(map["payload" := JObj(map["op" := JStr("d"),
                                     "before" := JObj(map["id" := JInt(1)])])]);
      JInt(1) !in Consume(t, [Some(create), Some(delete)])
  {
    var create := JObj(map["payload" := JObj(map["op" := JStr("c"),
                           "after" := JObj(map["id" := JInt(1), "name" := JStr("alice")])])]);
    var delete := JObj(map["payload" := JObj(map["op" := JStr("d"),
                           "before" := JObj(map["id" := JInt(1)])])]);
    assert Decode(delete) == Delete(JObj(map["id" := JInt(1)]));
    LastDeleteWins(t, [Some(create)], delete, []);
    assert [Some(create)] + [Some(delete)] + [] == [Some(create), Some(delete)];
  }

  /** A create event for the alice row (aged 30), in a full Debezium envelope
      with a `schema` key beside `payload`, leaves on an empty table exactly
      the row PROCESSED_ALICE, aged 31, under id 1. */
  lemma AliceEventScenario()
    ensures var create := JObj(map["schema" := JObj(map["type" := JStr("struct")]),
                                   "payload" := JObj(map["op" := JStr("c"), "before" := JNull,
                                     "after" := JObj(map["id" := JInt(1), "name" := JStr("alice"),
                                                         "email" := JStr("a@x.com"), "age" := JInt(30)])])]);
      Consume(map[], [Some(create)]) == map[JInt(1) := Row(JInt(1), "PROCESSED_ALICE", JStr("a@x.com"), 31)]
  {
    var after := JObj(map["id" := JInt(1), "name" := JStr("alice"),
                          "email" := JStr("a@x.com"), "age" := JInt(30)]);
    var p := map["op" := JStr("c"), "before" := JNull, "after" := after];
    var m := map["schema" := JObj(map["type" := JStr("struct")]), "payload" := JObj(p)];
    DecodeOps(m, p);
    assert Decode(JObj(m)) == Create(after);
    AliceScenario();
    assert Consume(map[], [Some(JObj(m))]) == Consume(Deliver(map[], Some(JObj(m))), []);
  }
}
