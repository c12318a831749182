/** Values that tasks exchange and the states that runners record. */
module Values {
  datatype Json =
    | Null
    | Boolean(b: bool)
    | Number(n: int)
    | Str(s: string)
    | Array(items: seq<Json>)
    | Object(fields: map<string, Json>)

  datatype TaskOutput =
    | NoValue
    | Int(n: int)
    | Text(s: string)
    | Nested(json: Json)

  function AsJson(o: TaskOutput): Json {
    match o
    case NoValue => Null
    case Int(n) => Number(n)
    case Text(s) => Str(s)
    case Nested(json) => json
  }

  /** What is stored for a task whose body failed with a message. */
  function ErrorJson(message: string): Json {
    Object(map["error" := Str(message)])
  }

  datatype TaskState = Queued | Running | Succeeded | Failed | Skipped

  predicate Terminal(s: TaskState) {
    s in {Succeeded, Failed, Skipped}
  }
}
