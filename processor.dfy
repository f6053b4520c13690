/** `CDCProcessor`: the object that owns the connection to tableb and runs
    the consume loop. Its state here is the content of tableb. */
module Processor {

  import opened Wrappers
  import opened JsonValues
  import opened RowTransform
  import opened ChangeEvents
  import opened TableB
  import opened Stream

  class CdcProcessor {
    /** The rows of tableb, as reached through `self.db_connection`. */
    var tableB: Table

    ghost predicate Valid()
      reads this
    {
      Keyed(tableB)
    }

    /** A processor connected to a tableb holding `initial`. */
    constructor (initial: Table)
      requires Keyed(initial)
      ensures Valid() && tableB == initial
    {
      tableB := initial;
    }

    /** `insert_to_tableb`: transform `data`, then upsert it keyed by `id`;
        a transform that raises, or a NULL key, writes nothing. */
    method InsertToTableB(data: Json)
      requires Valid()
      modifies this
      ensures Valid()
      ensures tableB == Committed(old(tableB), Upserted(old(tableB), data))
    {
      var transformed := Transform(data);
      if transformed.Success? {
        var row := transformed.value;
        if row.id != JNull {
          tableB := tableB[row.id := row];
        }
      }
    }

    /** `update_tableb`: the new image is upserted; the old one is not read. */
    method UpdateTableB(before: Json, after: Json)
      requires Valid()
      modifies this
      ensures Valid()
      ensures tableB == Apply(old(tableB), Update(before, after))
    {
      InsertToTableB(after);
    }

    /** `delete_from_tableb`: remove the row whose `id` the image names. */
    method DeleteFromTableB(data: Json)
      requires Valid()
      modifies this
      ensures Valid()
      ensures tableB == Committed(old(tableB), Deleted(old(tableB), data))
    {
      match data {
        case JObj(m) =>
          var id := Get(m, "id", JNull);
          if id != JNull {
            tableB := tableB - {id};
          }
        case _ =>
          // `.get` on a row image that is not a dict raises, and is caught
      }
    }

    /** `process_change_event`: read the payload and its op, and call the
        matching write; a `.get` that raises is caught and nothing happens. */
    method ProcessChangeEvent(message: Json)
      requires Valid()
      modifies this
      ensures Valid()
      ensures tableB == ProcessMessage(old(tableB), message)
    {
      match message {
        case JObj(m) =>
          var payload := Get(m, "payload", EmptyObject);
          match payload {
            case JObj(p) =>
              var op := Get(p, "op", JNull);
              if op == JStr("c") {
                var after := Get(p, "after", EmptyObject);
                InsertToTableB(after);
              } else if op == JStr("u") {
                var after := Get(p, "after", EmptyObject);
                var before := Get(p, "before", EmptyObject);
                UpdateTableB(before, after);
              } else if op == JStr("d") {
                var before := Get(p, "before", EmptyObject);
                DeleteFromTableB(before);
              }
            case _ =>
          }
        case _ =>
      }
    }

    /** The consume loop of `run`: each message with a truthy value is
        processed, in stream order. */
    method Run(stream: seq<Message>)
      requires Valid()
      modifies this
      ensures Valid()
      ensures tableB == Consume(old(tableB), stream)
    {
      for i := 0 to |stream|
        invariant Valid()
        invariant tableB == Consume(old(tableB), stream[..i])
      {
        ConsumeSnoc(old(tableB), stream[..i], stream[i]);
        assert stream[..i + 1] == stream[..i] + [stream[i]];
        var message := stream[i];
        if message.Some? && Truthy(message.value) {
          ProcessChangeEvent(message.value);
        }
      }
      assert stream[..|stream|] == stream;
    }
  }
}
