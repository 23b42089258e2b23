/** main.py: the command-line copy of answer_question. It follows the same
    steps as answer_question.py but asks for TOP_K candidates and uses its
    own failure messages. */
module QueryMain {
  import opened Values
  import Config
  import Ask = AnswerQuestion

  const EMBED_FAILED: string := "Failed to embed the query."
  const RETRIEVE_FAILED: string := "Failed to retrieve relevant context."
  const NO_CONTEXT: string := "No relevant context found in the documents."
  const INVALID_CHUNK: string := "The answer could not be generated due to invalid document format."
  const GENERATE_FAILED: string := "Failed to generate an answer."
  /** The number of candidates this path asks for. */
  const CANDIDATES: int := Config.TOP_K

  /** answer_question(user_query) as main.py defines it. */
  function AnswerQuestion(userQuery: string,
                          embed: string -> Outcome<seq<real>>,
                          retrieve: (seq<real>, int) -> Outcome<seq<Value>>,
                          generate: (Value, string) -> Outcome<string>): (r: Response)
    ensures r.source.Some? ==> r.source.value.Keys == {"filename", "page_number", "chunk_id", "chunk_text"}
  {
    match embed(userQuery)
    case Raised => Response(EMBED_FAILED, None)
    case Returned(queryVector) =>
      match retrieve(queryVector, CANDIDATES)
      case Raised => Response(RETRIEVE_FAILED, None)
      case Returned(topChunks) =>
        if topChunks == [] then Response(NO_CONTEXT, None)
        else
          var selected := topChunks[0];
          if !Ask.ValidChunk(selected) then Response(INVALID_CHUNK, None)
          else
            var answer := match generate(selected, userQuery)
              case Raised => GENERATE_FAILED
              case Returned(a) => a;
            Response(answer, Some(SourceOf(selected.entries)))
  }

  /** The four cases that return without a source. */
  predicate EarlyReturn(userQuery: string,
                        embed: string -> Outcome<seq<real>>,
                        retrieve: (seq<real>, int) -> Outcome<seq<Value>>)
  {
    || embed(userQuery).Raised?
    || retrieve(embed(userQuery).value, CANDIDATES).Raised?
    || retrieve(embed(userQuery).value, CANDIDATES).value == []
    || !Ask.ValidChunk(retrieve(embed(userQuery).value, CANDIDATES).value[0])
  }

  /** A failed embedding gives its message without a source, whatever
      retrieval and generation would do: neither is consulted. */
  lemma EmbedFailure(userQuery: string, embed: string -> Outcome<seq<real>>,
                     retrieve: (seq<real>, int) -> Outcome<seq<Value>>, generate: (Value, string) -> Outcome<string>,
                     retrieve': (seq<real>, int) -> Outcome<seq<Value>>, generate': (Value, string) -> Outcome<string>)
    requires embed(userQuery) == Raised
    ensures AnswerQuestion(userQuery, embed, retrieve, generate) == Response(EMBED_FAILED, None)
    ensures AnswerQuestion(userQuery, embed, retrieve, generate) == AnswerQuestion(userQuery, embed, retrieve', generate')
  {
  }

  /** Failed retrieval, no candidates and a malformed first candidate each
      give their own message without a source. */
  lemma RetrievalOutcomes(userQuery: string, embed: string -> Outcome<seq<real>>,
                          retrieve: (seq<real>, int) -> Outcome<seq<Value>>, generate: (Value, string) -> Outcome<string>)
    requires embed(userQuery).Returned?
    ensures var r := AnswerQuestion(userQuery, embed, retrieve, generate);
      match retrieve(embed(userQuery).value, CANDIDATES)
      case Raised => r == Response(RETRIEVE_FAILED, None)
      case Returned(cs) =>
        && (cs == [] ==> r == Response(NO_CONTEXT, None))
        && (cs != [] && !Ask.ValidChunk(cs[0]) ==> r == Response(INVALID_CHUNK, None))
  {
  }

  /** The source is missing exactly in the four early returns. */
  lemma SourceMissingExactly(userQuery: string, embed: string -> Outcome<seq<real>>,
                             retrieve: (seq<real>, int) -> Outcome<seq<Value>>, generate: (Value, string) -> Outcome<string>)
    ensures AnswerQuestion(userQuery, embed, retrieve, generate).source.None? <==> EarlyReturn(userQuery, embed, retrieve)
  {
  }

  /** Once a valid chunk is chosen the source is copied from it, and a
      failed generation only replaces the answer. */
  lemma SourceFromSelected(userQuery: string, embed: string -> Outcome<seq<real>>,
                           retrieve: (seq<real>, int) -> Outcome<seq<Value>>, generate: (Value, string) -> Outcome<string>)
    requires !EarlyReturn(userQuery, embed, retrieve)
    ensures var selected := retrieve(embed(userQuery).value, CANDIDATES).value[0];
      var r := AnswerQuestion(userQuery, embed, retrieve, generate);
      && r.source == Some(SourceOf(selected.entries))
      && r.source.value["chunk_text"] == selected.entries["chunk_text"]
      && r.answer == (if generate(selected, userQuery).Raised? then GENERATE_FAILED
                      else generate(selected, userQuery).value)
  {
  }

  /** Only the first candidate matters: two retrievals that agree on it
      give the same response. */
  lemma OnlyFirstCandidate(userQuery: string, embed: string -> Outcome<seq<real>>,
                           retrieve: (seq<real>, int) -> Outcome<seq<Value>>,
                           retrieve': (seq<real>, int) -> Outcome<seq<Value>>,
                           generate: (Value, string) -> Outcome<string>)
    requires embed(userQuery).Returned?
    requires var v := embed(userQuery).value;
      && retrieve(v, CANDIDATES).Returned? && retrieve'(v, CANDIDATES).Returned?
      && retrieve(v, CANDIDATES).value != [] && retrieve'(v, CANDIDATES).value != []
      && retrieve(v, CANDIDATES).value[0] == retrieve'(v, CANDIDATES).value[0]
    ensures AnswerQuestion(userQuery, embed, retrieve, generate) == AnswerQuestion(userQuery, embed, retrieve', generate)
  {
  }

  /** Past the early returns the two copies of answer_question agree: the
      same chunk is chosen (TOP_K is 3) and the same answer and source
      come back; only the early-return messages differ. */
  lemma AgreesWithAnswerQuestion(userQuery: string, embed: string -> Outcome<seq<real>>,
                                 retrieve: (seq<real>, int) -> Outcome<seq<Value>>,
                                 generate: (Value, string) -> Outcome<string>)
    requires !EarlyReturn(userQuery, embed, retrieve)
    ensures AnswerQuestion(userQuery, embed, retrieve, generate)
         == Ask.AnswerQuestion(userQuery, embed, retrieve, generate)
  {
  }
}
