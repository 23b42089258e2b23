/** answer_question.py: the query path. Embed the question, fetch three
    candidate chunks, hand the first to the model, and report the answer
    with the chunk's source. Every step that may raise is a parameter
    giving that step's outcome; each failure returns a fixed message. */
module AnswerQuestion {
  import opened Values
  import Retriever
  import LlamaInterface

  const EMBED_FAILED: string := "Failed to process your query due to embedding error."
  const RETRIEVE_FAILED: string := "Failed to retrieve relevant information."
  const NO_CONTEXT: string := "No relevant context found in the documents."
  const INVALID_CHUNK: string := "Internal error: Invalid chunk format passed to LLM."
  const GENERATE_FAILED: string := "Failed to generate an answer."
  /** The number of candidates this path asks for (a literal 3 here). */
  const CANDIDATES: int := 3

  /** The chunk handed to the model must be a dict with a chunk_text key. */
  predicate ValidChunk(chunk: Value) {
    chunk.Dict? && "chunk_text" in chunk.entries
  }

  /** answer_question(user_query). */
  function AnswerQuestion(userQuery: string,
                          embed: string -> Outcome<seq<real>>,
                          retrieve: (seq<real>, int) -> Outcome<seq<Value>>,
                          generate: (Value, string) -> Outcome<string>): (r: Response)
    ensures r.source.Some? ==> r.source.value.Keys == {"filename", "page_number", "chunk_id", "chunk_text"}
  {
    match embed(userQuery)
    case Raised => Response(EMBED_FAILED, None)
    case Returned(queryVector) =>
      match retrieve(queryVector, CANDIDATES)
      case Raised => Response(RETRIEVE_FAILED, None)
      case Returned(topChunks) =>
        if topChunks == [] then Response(NO_CONTEXT, None)
        else
          var selected := topChunks[0];
          if !ValidChunk(selected) then Response(INVALID_CHUNK, None)
          else
            var answer := match generate(selected, userQuery)
              case Raised => GENERATE_FAILED
              case Returned(a) => a;
            Response(answer, Some(SourceOf(selected.entries)))
  }

  /** The four cases that return without a source. */
  predicate EarlyReturn(userQuery: string,
                        embed: string -> Outcome<seq<real>>,
                        retrieve: (seq<real>, int) -> Outcome<seq<Value>>)
  {
    || embed(userQuery).Raised?
    || retrieve(embed(userQuery).value, CANDIDATES).Raised?
    || retrieve(embed(userQuery).value, CANDIDATES).value == []
    || !ValidChunk(retrieve(embed(userQuery).value, CANDIDATES).value[0])
  }

  /** A failed embedding gives its message without a source, whatever
      retrieval and generation would do: neither is consulted. */
  lemma EmbedFailure(userQuery: string, embed: string -> Outcome<seq<real>>,
                     retrieve: (seq<real>, int) -> Outcome<seq<Value>>, generate: (Value, string) -> Outcome<string>,
                     retrieve': (seq<real>, int) -> Outcome<seq<Value>>, generate': (Value, string) -> Outcome<string>)
    requires embed(userQuery) == Raised
    ensures AnswerQuestion(userQuery, embed, retrieve, generate) == Response(EMBED_FAILED, None)
    ensures AnswerQuestion(userQuery, embed, retrieve, generate) == AnswerQuestion(userQuery, embed, retrieve', generate')
  {
  }

  /** Failed retrieval, no candidates and a malformed first candidate each
      give their own message without a source. */
  lemma RetrievalOutcomes(userQuery: string, embed: string -> Outcome<seq<real>>,
                          retrieve: (seq<real>, int) -> Outcome<seq<Value>>, generate: (Value, string) -> Outcome<string>)
    requires embed(userQuery).Returned?
    ensures var r := AnswerQuestion(userQuery, embed, retrieve, generate);
      match retrieve(embed(userQuery).value, CANDIDATES)
      case Raised => r == Response(RETRIEVE_FAILED, None)
      case Returned(cs) =>
        && (cs == [] ==> r == Response(NO_CONTEXT, None))
        && (cs != [] && !ValidChunk(cs[0]) ==> r == Response(INVALID_CHUNK, None))
  {
  }

  /** The source is missing exactly in the four early returns. */
  lemma SourceMissingExactly(userQuery: string, embed: string -> Outcome<seq<real>>,
                             retrieve: (seq<real>, int) -> Outcome<seq<Value>>, generate: (Value, string) -> Outcome<string>)
    ensures AnswerQuestion(userQuery, embed, retrieve, generate).source.None? <==> EarlyReturn(userQuery, embed, retrieve)
  {
  }

  /** Once a valid chunk is chosen the source is copied from it, and a
      failed generation only replaces the answer. */
  lemma SourceFromSelected(userQuery: string, embed: string -> Outcome<seq<real>>,
                           retrieve: (seq<real>, int) -> Outcome<seq<Value>>, generate: (Value, string) -> Outcome<string>)
    requires !EarlyReturn(userQuery, embed, retrieve)
    ensures var selected := retrieve(embed(userQuery).value, CANDIDATES).value[0];
      var r := AnswerQuestion(userQuery, embed, retrieve, generate);
      && r.source == Some(SourceOf(selected.entries))
      && r.source.value["chunk_text"] == selected.entries["chunk_text"]
      && r.answer == (if generate(selected, userQuery).Raised? then GENERATE_FAILED
                      else generate(selected, userQuery).value)
  {
  }

  /** Only the first candidate matters: two retrievals that agree on it
      give the same response. */
  lemma OnlyFirstCandidate(userQuery: string, embed: string -> Outcome<seq<real>>,
                           retrieve: (seq<real>, int) -> Outcome<seq<Value>>,
                           retrieve': (seq<real>, int) -> Outcome<seq<Value>>,
                           generate: (Value, string) -> Outcome<string>)
    requires embed(userQuery).Returned?
    requires var v := embed(userQuery).value;
      && retrieve(v, CANDIDATES).Returned? && retrieve'(v, CANDIDATES).Returned?
      && retrieve(v, CANDIDATES).value != [] && retrieve'(v, CANDIDATES).value != []
      && retrieve(v, CANDIDATES).value[0] == retrieve'(v, CANDIDATES).value[0]
    ensures AnswerQuestion(userQuery, embed, retrieve, generate) == AnswerQuestion(userQuery, embed, retrieve', generate)
  {
  }

  /** The retriever's records as the Python dicts this path receives. */
  function AsValues(records: seq<map<string, Value>>): (vs: seq<Value>)
    ensures |vs| == |records|
  {
    seq(|records|, k requires 0 <= k < |records| => Dict(records[k]))
  }

  /** With retrieve_top_k_chunks as the retrieval step, the first candidate
      is always well formed, so the malformed-chunk answer cannot occur.
      The retriever also catches every failure of search, so it fails only
      if its own print raises, which this model does not cover. */
  lemma RetrieverRulesOutFailures(search: (seq<real>, int) -> Outcome<Value>, queryVector: seq<real>)
    ensures var cs := AsValues(Retriever.Retrieved(search(queryVector, CANDIDATES)));
      cs != [] ==> ValidChunk(cs[0])
  {
    var records := Retriever.Retrieved(search(queryVector, CANDIDATES));
    if records != [] {
      assert AsValues(records)[0] == Dict(records[0]);
    }
  }

  /** With generate_answer as the generation step, the answer is either the
      failure message or a de-duplicated model reply. */
  lemma GenerationNeverRaises(userQuery: string, embed: string -> Outcome<seq<real>>,
                              retrieve: (seq<real>, int) -> Outcome<seq<Value>>,
                              llm: string -> Outcome<Value>)
    requires !EarlyReturn(userQuery, embed, retrieve)
    ensures var r := AnswerQuestion(userQuery, embed, retrieve,
                                    (c, q) => Returned(LlamaInterface.GenerateAnswer(c, q, llm)));
      r.answer == GENERATE_FAILED || exists raw :: r.answer == LlamaInterface.Cleaned(raw)
  {
  }
}
