/** The Python values the query path hands around: payloads read back from
    the vector store, the chunk given to the model, the model's reply and
    the response returned to the user interface. */
module Values {
  import opened Text

  datatype Option<T> = None | Some(value: T)

  /** A Python value, as far as the query path inspects it. Other stands
      for every object the code never looks into (floats, vectors, ...). */
  datatype Value =
    | Str(s: string)
    | Int(i: int)
    | NoneValue
    | List(items: seq<Value>)
    | Dict(entries: map<string, Value>)
    | Other

  /** The outcome of a call that may raise an exception. */
  datatype Outcome<T> = Raised | Returned(value: T)

  /** d.get(key, default). */
  function Get(d: map<string, Value>, key: string, default: Value): Value {
    if key in d then d[key] else default
  }

  /** str(i) for a Python int. */
  function IntToString(i: int): (r: string)
    ensures r != []
  {
    if i < 0 then "-" + NatToString(-i) else NatToString(i)
  }

  /** str(value) for the values a chunk field holds; containers and other
      objects are shown by a fixed placeholder. */
  function Show(v: Value): string {
    match v
    case Str(s) => s
    case Int(i) => IntToString(i)
    case NoneValue => "None"
    case _ => "<object>"
  }

  /** The dict answer_question returns: the answer text and, when a chunk
      was handed to the model, where it came from. */
  datatype Response = Response(answer: string, source: Option<map<string, Value>>)

  /** The source of a response: filename, page_number and chunk_id of the
      chunk (default "N/A") and its text (default ""). */
  function SourceOf(chunk: map<string, Value>): (source: map<string, Value>)
    ensures source.Keys == {"filename", "page_number", "chunk_id", "chunk_text"}
  {
    map["filename" := Get(chunk, "filename", Str("N/A")),
        "page_number" := Get(chunk, "page_number", Str("N/A")),
        "chunk_id" := Get(chunk, "chunk_id", Str("N/A")),
        "chunk_text" := Get(chunk, "chunk_text", Str(""))]
  }
}
