/** The row transform of `insert_to_tableb`: the dictionary built from a
    source row image before it is written to tableb. */
module RowTransform {

  import opened Wrappers
  import opened JsonValues

  /** The literal put in front of every transformed name. */
  const Prefix: string := "PROCESSED_"

  /** A row of tableb without its `processed_at` column (wall-clock time). */
  datatype Row = Row(id: Json, name: string, email: Json, age: int)

  /** Why a change event is dropped without a write. */
  datatype Fault =
    | NotAnObject     // `.get` on a row image that is not a dict (AttributeError)
    | NameNotString   // `.upper()` on a name that is not a str (AttributeError)
    | AgeNotNumber    // `+ 1` on an age that is not an int (TypeError)
    | NullKey         // the write of a row whose primary key `id` is NULL

  /** ASCII upper case of one character; other characters are kept. */
  function UpperChar(c: char): (u: char)
    ensures !('a' <= u <= 'z')
  {
    if 'a' <= c <= 'z' then (c as int - 32) as char else c
  }

  /** `str.upper()`, character by character. */
  function Upper(s: string): (r: string)
    ensures |r| == |s|
    ensures forall i :: 0 <= i < |s| ==> r[i] == UpperChar(s[i])
  {
    if s == [] then [] else [UpperChar(s[0])] + Upper(s[1..])
  }

  /** The transform: `id` and `email` copied (null when absent), `name`
      prefixed and upper-cased (`""` when absent), `age` plus one (`0`
      when absent). A present but null or ill-typed `name` or `age`
      raises, and so does a row image that is not an object. */
  function Transform(data: Json): (r: Result<Row, Fault>)
    ensures r.Success? ==> data.JObj?
    ensures r.Success? ==> |r.value.name| >= |Prefix| && r.value.name[..|Prefix|] == Prefix
  {
    match data
    case JObj(m) =>
      var name := Get(m, "name", JStr(""));
      var age := Get(m, "age", JInt(0));
      if !name.JStr? then Failure(NameNotString)
      else if IntValue(age).None? then Failure(AgeNotNumber)
      else Success(Row(Get(m, "id", JNull), Prefix + Upper(name.s), Get(m, "email", JNull),
                       IntValue(age).value + 1))
    case _ => Failure(NotAnObject)
  }

  /** Upper-casing twice is upper-casing once. */
  lemma UpperIdempotent(s: string)
    ensures Upper(Upper(s)) == Upper(s)
  {
  }

  /** The transform fails exactly when the row image is not an object, or
      its `name` is present and not a string, or its `age` is present and
      neither an int nor a bool (null included in both cases). */
  lemma TransformFailsIff(data: Json)
    ensures Transform(data).Failure? <==>
      (!data.JObj? ||
       ("name" in data.fields && !data.fields["name"].JStr?) ||
       ("age" in data.fields && !(data.fields["age"].JInt? || data.fields["age"].JBool?)))
  {
  }

  /** A present but null `name` or `age` makes the transform raise. */
  lemma NullNameOrAgeFails(m: map<string, Json>)
    requires ("name" in m && m["name"] == JNull) || ("age" in m && m["age"] == JNull)
    ensures Transform(JObj(m)).Failure?
  {
  }

  /** The transformed name is the prefix followed by the upper-cased
      source name, and exactly the prefix when `name` is absent. */
  lemma TransformName(m: map<string, Json>)
    requires Transform(JObj(m)).Success?
    ensures "name" in m ==> Transform(JObj(m)).value.name == Prefix + Upper(m["name"].s)
    ensures "name" !in m ==> Transform(JObj(m)).value.name == Prefix
  {
  }

  /** The transformed age is the source age plus one, and 1 when `age` is
      absent. */
  lemma TransformAge(m: map<string, Json>)
    requires Transform(JObj(m)).Success?
    ensures "age" in m && m["age"].JInt? ==> Transform(JObj(m)).value.age == m["age"].i + 1
    ensures "age" in m && m["age"].JBool? ==>
      Transform(JObj(m)).value.age == (if m["age"].b then 2 else 1)
    ensures "age" !in m ==> Transform(JObj(m)).value.age == 1
  {
  }

  /** `id` and `email` are copied unchanged; an absent one becomes null. */
  lemma TransformCopies(m: map<string, Json>)
    requires Transform(JObj(m)).Success?
    ensures Transform(JObj(m)).value.id == (if "id" in m then m["id"] else JNull)
    ensures Transform(JObj(m)).value.email == (if "email" in m then m["email"] else JNull)
  {
  }

  /** After the prefix, the transformed name holds no lower-case ASCII letter. */
  lemma TransformedNameIsUpper(m: map<string, Json>)
    requires Transform(JObj(m)).Success?
    ensures var n := Transform(JObj(m)).value.name;
      forall i :: |Prefix| <= i < |n| ==> !('a' <= n[i] <= 'z')
  {
  }

  /** The alice row: aged 30, it becomes PROCESSED_ALICE, aged 31, with its id and email kept. */
  lemma AliceScenario()
    ensures Transform(JObj(map["id" := JInt(1), "name" := JStr("alice"),
                               "email" := JStr("a@x.com"), "age" := JInt(30)]))
         == Success(Row(JInt(1), "PROCESSED_ALICE", JStr("a@x.com"), 31))
  {
    var m := map["id" := JInt(1), "name" := JStr("alice"), "email" := JStr("a@x.com"), "age" := JInt(30)];
    assert m["name"] == JStr("alice") && m["age"] == JInt(30);
    assert Upper("alice") == "ALICE";
    assert Prefix + "ALICE" == "PROCESSED_ALICE";
  }
}
