// The settings module: chunking limits, the retrieval depth, and a second
// copy of the chunker whose defaults are these settings instead of the
// chunker module's own 400/50.

module Config {
  import opened Text
  import Chunker
  import opened Values

  /** Largest number of words a chunk may reach before it is closed. */
  const CHUNK_MAX_TOKENS: int := 250
  /** Overlap setting; the chunker keeps overlap // 10 sentences of it. */
  const CHUNK_OVERLAP_TOKENS: int := 50
  /** Number of chunks a question retrieves. */
  const TOP_K: nat := 3

  /** A piece of a format string: literal text or a {name} placeholder. */
  datatype Piece = Text(t: string) | Field(name: string)

  /** The prompt sent to the model, cut at its placeholders: the
      instruction and the chunk, then the user's question. */
  const PROMPT_TEMPLATE: seq<Piece> := CHUNK_PIECES + QUESTION_PIECES

  /** The instruction and the retrieved chunk's fields. */
  const CHUNK_PIECES: seq<Piece> := [
    Text("\n[Instruction]: Using only the content below, return the most concise and specific answer to the user's question.\n"
      + "If possible, quote or summarize just the most relevant sentence, clause, or bullet from the provided content.\n\n"
      + "If the answer is not present, reply: \"The answer is not available in the provided documents.\"\n"
      + "Document Source:\nFile: "),
    Field("filename"), Text("\nPage: "), Field("page_number"), Text("\nChunk ID: "), Field("chunk_id"),
    Text("\n"), Field("chunk_text")]

  /** The closing line with the user's question. */
  const QUESTION_PIECES: seq<Piece> := [Text("\nUser Question: "), Field("user_query"), Text("\n")]

  /** str.format with keyword arguments: each placeholder replaced by its
      field (Prompt supplies every field the template names). */
  function Format(template: seq<Piece>, fields: map<string, string>): string
    decreases |template|
  {
    if template == [] then "" else PieceText(template[0], fields) + Format(template[1..], fields)
  }

  /** One piece with its placeholder filled. */
  function PieceText(piece: Piece, fields: map<string, string>): string {
    match piece
    case Text(t) => t
    case Field(n) => if n in fields then fields[n] else ""
  }

  /** The prompt generate_answer builds: PROMPT_TEMPLATE.format with each
      chunk field read by chunk.get(key, "") and the user's question. */
  function Prompt(chunk: map<string, Value>, userQuery: string): string {
    Format(PROMPT_TEMPLATE, map[
      "filename" := Show(Get(chunk, "filename", Str(""))),
      "page_number" := Show(Get(chunk, "page_number", Str(""))),
      "chunk_id" := Show(Get(chunk, "chunk_id", Str(""))),
      "chunk_text" := Show(Get(chunk, "chunk_text", Str(""))),
      "user_query" := userQuery])
  }

  /** Formatting a template in two parts formats each part in turn. */
  lemma {:induction false} FormatAppend(front: seq<Piece>, back: seq<Piece>, fields: map<string, string>)
    ensures Format(front + back, fields) == Format(front, fields) + Format(back, fields)
    decreases |front|
  {
    if front != [] {
      var whole := front + back;
      assert whole[0] == front[0];
      assert whole[1..] == front[1..] + back;
      FormatAppend(front[1..], back, fields);
      calc {
        Format(whole, fields);
        PieceText(front[0], fields) + Format(front[1..] + back, fields);
        PieceText(front[0], fields) + (Format(front[1..], fields) + Format(back, fields));
        (PieceText(front[0], fields) + Format(front[1..], fields)) + Format(back, fields);
      }
    } else {
      assert front + back == back;
    }
  }

  /** The prompt closes with the user's question on a line of its own,
      after the chunk's text. */
  lemma PromptEndsWithQuestion(chunk: map<string, Value>, userQuery: string)
    ensures var question := "\nUser Question: " + userQuery + "\n";
      var prompt := Prompt(chunk, userQuery);
      |question| <= |prompt| && prompt[|prompt| - |question|..] == question
  {
    var fields := map[
      "filename" := Show(Get(chunk, "filename", Str(""))),
      "page_number" := Show(Get(chunk, "page_number", Str(""))),
      "chunk_id" := Show(Get(chunk, "chunk_id", Str(""))),
      "chunk_text" := Show(Get(chunk, "chunk_text", Str(""))),
      "user_query" := userQuery];
    FormatAppend(CHUNK_PIECES, QUESTION_PIECES, fields);
    assert Format(QUESTION_PIECES, fields) == "\nUser Question: " + userQuery + "\n";
  }

  /** chunk_text with the settings as defaults. */
  method ChunkText(text: string, maxTokens: int := CHUNK_MAX_TOKENS, overlap: int := CHUNK_OVERLAP_TOKENS)
    returns (chunks: seq<string>)
    ensures chunks == Chunker.Chunks(text, maxTokens, overlap)
  {
    chunks := Chunker.ChunkText(text, maxTokens, overlap);
  }

  /** process_pdf, chunking every page with the settings. */
  method ProcessPdf(path: string, pages: seq<string>) returns (allChunks: seq<Chunker.ChunkRecord>)
    ensures allChunks == Chunker.PdfRecords(path, pages, CHUNK_MAX_TOKENS, CHUNK_OVERLAP_TOKENS)
  {
    allChunks := Chunker.ProcessPdf(path, pages, CHUNK_MAX_TOKENS, CHUNK_OVERLAP_TOKENS);
  }

  /** process_docx, chunking the document text with the settings. */
  method ProcessDocx(path: string, paragraphs: seq<string>) returns (records: seq<Chunker.ChunkRecord>)
    ensures records == Chunker.DocxRecords(path, paragraphs, CHUNK_MAX_TOKENS, CHUNK_OVERLAP_TOKENS)
  {
    records := Chunker.ProcessDocx(path, paragraphs, CHUNK_MAX_TOKENS, CHUNK_OVERLAP_TOKENS);
  }

  /** process_documents with the settings. */
  method ProcessDocuments(paths: seq<string>, pdfPages: string -> seq<string>, docxParagraphs: string -> seq<string>)
    returns (allChunks: seq<Chunker.ChunkRecord>)
    ensures allChunks == Chunker.DocumentRecords(paths, pdfPages, docxParagraphs, CHUNK_MAX_TOKENS, CHUNK_OVERLAP_TOKENS)
  {
    allChunks := Chunker.ProcessDocuments(paths, pdfPages, docxParagraphs, CHUNK_MAX_TOKENS, CHUNK_OVERLAP_TOKENS);
  }

  /** With an overlap of 50, each chunk after a closed one starts with the
      last five sentences of the closed one, or all of them when it had
      fewer; the sentence that did not fit follows them. */
  lemma OverlapKeepsFiveSentences(text: string, maxTokens: int, k: nat)
    requires k + 1 < |Chunker.Chunks(text, maxTokens, CHUNK_OVERLAP_TOKENS)|
    ensures var sp := Chunker.Spans(Chunker.Sentences(text), maxTokens, CHUNK_OVERLAP_TOKENS);
      sp[k].lo <= sp[k].hi
      && sp[k + 1].lo == (if sp[k].hi - sp[k].lo <= 5 then sp[k].lo else sp[k].hi - 5)
      && sp[k].hi < sp[k + 1].hi
  {
    var sp := Chunker.Spans(Chunker.Sentences(text), maxTokens, CHUNK_OVERLAP_TOKENS);
    Chunker.ChunkClosed(text, maxTokens, CHUNK_OVERLAP_TOKENS, k);
    Chunker.CarryStartCases(sp[k].lo, sp[k].hi, CHUNK_OVERLAP_TOKENS);
  }
}
