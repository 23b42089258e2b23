# Offline RAG chatbot: the chunking, retrieval and answering core in Dafny

The repository is a small retrieval-augmented question answering bot. PDF
and DOCX files are cut into overlapping text chunks tagged with file name,
page and chunk id. The chunks are embedded and stored in a Qdrant
collection. For a question, the query vector retrieves the nearest chunks,
the first of them is put into a prompt for a local llama.cpp model, and the
model's reply is cleaned of repeated sentences and laid out for the chat
window.

This project models that core in Dafny, one module per source file:

| module | file | source |
|---|---|---|
| `Text` | text.dfy | the Python string builtins the core relies on: `str.strip`, `str.split()`, `re.split(r'(?<=[.!?])\s+', …)`, `"sep".join`, `str.split(c)`, `lower`, negative-index slicing, `str(int)`, `endswith`, `path.split("/")[-1]` |
| `Values` | values.dfy | Python values as the query path inspects them (`dict.get`, `str()`), and outcomes of calls that may raise |
| `Chunker` | chunker.dfy | chunker.py: `chunk_text`, `process_pdf`, `process_docx`, `process_documents` (defaults 400/50) |
| `Config` | config.dfy | config.py: the settings, `PROMPT_TEMPLATE`, and the second copy of the chunker (defaults 250/50) |
| `LoadAndChunk` | load_and_chunk.dfy | load_and_chunk.py: `split_text` and `load_and_chunk_pdf` |
| `LlamaInterface` | llama_cpp_interface.dfy | llama_cpp_interface.py: `clean_repetitions` and `generate_answer` |
| `Retriever` | retriever.dfy | retriever.py: `retrieve_top_k_chunks` |
| `AnswerQuestion` | answer_question.dfy | answer_question.py: `answer_question` |
| `QueryMain` | main_query.dfy | main.py: its own `answer_question` |
| `App` | app.dfy | app.py: `pretty_bot_answer` |

Loops in the source are Dafny methods with loop invariants. Each method is
proved equal to a specification function, and the lemmas state what those
functions guarantee. Examples:
- `Chunker.ChunkText`'s sentence-packing loop equals `Chunker.Chunks`.
- Every chunk except the last was closed because the next sentence would
  overflow the word budget.
- Each sentence lies in some chunk.
- PDF chunk ids are distinct.
- `split_text` windows start every `chunk_size - overlap` words and share
  `overlap` words with the next window.
- `clean_repetitions` keeps exactly the first occurrence of each sentence,
  ignoring case.
- `generate_answer` never raises, as long as its `print` calls do not.
- The retriever keeps exactly the dict payloads, in order.
- Both `answer_question` functions give a source exactly when the model was
  consulted.
- `pretty_bot_answer` strips the answer and puts a line break before each
  `\d+.`. It then works on the non-blank stripped lines and takes one of
  three branches:
  - If some line starts with a bullet, numbered lines stay as they are.
    Every other line becomes `- ` plus the line with its leading `-`,
    `•` or `*` marker and the whitespace after it removed.
  - Otherwise, if there are more than two lines, every line gets `- `.
  - Otherwise the stripped answer with its inserted line breaks is
    returned.

Some parts of the outside world are modelled as function parameters. They
are:
- the page texts of a PDF (`fitz`);
- the paragraphs of a DOCX file (`python-docx`);
- `uuid.uuid4()`, as an id generator indexed by the chunk's position;
- the embedding call;
- the Qdrant search;
- the llama.cpp model.

A call that may raise returns `Outcome<T>`, which is `Raised` or
`Returned(v)`.

Chunking is by sentences (chunker.py, config.py) or by word windows
(load_and_chunk.py) only. `answer_question` hands the single first
retrieved chunk to the model.

## Model

| member | source | states |
|---|---|---|
| Text.TrimLeft | chunker.py:8 | `lstrip` result is no longer than the input and starts with a non-whitespace character or is empty |
| Text.TrimLeftDrops | chunker.py:8 | `lstrip` removes exactly a whitespace prefix: the result is a suffix of the input and what was dropped is all whitespace |
| Text.TrimRight | chunker.py:8 | `rstrip` result is no longer than the input and ends with a non-whitespace character or is empty |
| Text.TrimRightDrops | chunker.py:8 | `rstrip` removes exactly a whitespace suffix |
| Text.Strip | load_and_chunk.py:18 | `strip()` is empty exactly when the input is all whitespace; otherwise it starts and ends with non-whitespace |
| Text.StripUnchanged | llama_cpp_interface.py:26 | stripping text without surrounding whitespace changes nothing (so the second `strip` in `clean_repetitions` is a no-op) |
| Text.WordEnd | chunker.py:12 | the end of a word is the first whitespace after it, and everything before is non-whitespace |
| Text.Words | chunker.py:12 | every element of `str.split()` is a non-empty run of non-whitespace |
| Text.NoWordsIffBlank | load_and_chunk.py:14 | `split()` is empty if and only if the text is all whitespace |
| Text.WordsOfWord | load_and_chunk.py:14 | a single word splits to itself |
| Text.WordsOfBlankPrefix | load_and_chunk.py:14 | leading whitespace does not change `split()` |
| Text.WordsAcrossGap | load_and_chunk.py:14 | `split()` of two texts joined by whitespace is the concatenation of their words |
| Text.SumWordsAppend | chunker.py:16 | the running word total grows by the new sentence's word count |
| Text.SumWordsIsAllWords | chunker.py:16 | the word total of several sentences is the number of their words together |
| Text.WordsOfJoin | chunker.py:14 | the words of `" ".join(parts)` are the parts' words in order |
| Text.WordCountOfJoin | chunker.py:14 | a chunk's word count is the sum of its sentences' word counts |
| Text.JoinWordsRoundTrip | load_and_chunk.py:17 | `" ".join(words).split() == words` for words without whitespace |
| Text.AllWordsOfWords | load_and_chunk.py:17 | the words of a list of words are that list |
| Text.NextBreak | chunker.py:8 | the next match position of `(?<=[.!?])\s+` is a terminator followed by whitespace, with none earlier |
| Text.SkipSpaces | chunker.py:8 | the `\s+` match consumes exactly the maximal whitespace run |
| Text.SplitSentences | chunker.py:8 | `re.split` always yields at least one piece |
| Text.SplitSentencesStep | chunker.py:8 | the split cuts before the first break and continues after the whitespace run |
| Text.SplitAtGap | chunker.py:8 | cutting text at a whitespace run keeps its words |
| Text.SentencesKeepWords | chunker.py:8 | joining the sentences with single spaces keeps exactly the text's words: splitting loses no words |
| Text.SentencesAreTrimmed | chunker.py:8 | on stripped non-empty text every sentence is non-empty and has no surrounding whitespace |
| Text.Lower | llama_cpp_interface.py:27 | ASCII lower-casing keeps the length |
| Text.PyIndex | chunker.py:15 | Python's normalisation of a slice bound: negative counts from the end, clamped to `0..n` |
| Text.DigitChar | chunker.py:34 | a decimal digit maps to a digit character |
| Text.DigitValue | chunker.py:34 | a digit character's value maps back to it |
| Text.NatToString | chunker.py:34 | `str(n)` is a non-empty run of digits |
| Text.ParseFormatRoundTrip | chunker.py:34 | reading `str(n)` back as a decimal gives `n` |
| Text.NatToStringInjective | chunker.py:34 | different numbers print differently |
| Text.BaseName | chunker.py:32 | `path.split("/")[-1]` contains no `/` |
| Text.BaseNameIsLastPart | chunker.py:32 | the base name is a suffix of the path, preceded by `/` when shorter than the path |
| Text.SplitOn | app.py:182 | `str.split(c)` yields at least one part |
| Text.SplitOnNoSep | app.py:182 | no part of `str.split(c)` contains `c` |
| Text.IndexOf | app.py:182 | the first occurrence of `c` |
| Text.SplitJoinRoundTrip | app.py:182 | `c.join(parts).split(c) == parts` when no part contains `c` |
| Text.SplitOnAt | app.py:182 | splitting at the first separator gives the part before it and the split of the rest |
| Text.SplitOnConcat | app.py:182 | splitting `x + c + y` at `c` gives the parts of `x` followed by the parts of `y` |
| Values.Get | retriever.py:30-33 | definition of `dict.get(key, default)`; `Retriever.RecordFields` states its two cases |
| Values.Show | llama_cpp_interface.py:38-44 | definition of `str()` of a field as `format` renders it (strings as they are, ints in decimal, `None` as "None") |
| Values.IntToString | llama_cpp_interface.py:40 | `str(i)` of an int is non-empty |
| Values.SourceOf | answer_question.py:53-58 | the returned source has exactly the keys filename, page_number, chunk_id, chunk_text |
| Chunker.Sentences | chunker.py:8 | the sentences of the stripped text; there is always at least one |
| Chunker.CarryStart | chunker.py:15 | the first sentence kept by `current_chunk[-(overlap // 10):]` lies within the current chunk |
| Chunker.CarryStartCases | chunker.py:15 | overlap 0..9 keeps all sentences (`[-0:]`); overlap >= 10 keeps the last `overlap // 10`; a negative overlap drops the first `-(overlap // 10)` |
| Chunker.CarriedSentences | chunker.py:15 | the Python slice of the current chunk equals the sentences from CarryStart on |
| Chunker.Counts | chunker.py:12 | one word count per sentence |
| Chunker.SumOfCounts | chunker.py:16 | `sum(len(s.split()) ...)` of a run of sentences equals the sum of their counts |
| Chunker.SumWordsIsSum | chunker.py:16 | the word total is the sum of the word counts |
| Chunker.Pack | chunker.py:11-18 | after `i` sentences the open chunk ends at `i` and, if any sentence was seen, is non-empty |
| Chunker.PackWithin | chunker.py:11-18 | every closed chunk is a range of the sentences seen so far |
| Chunker.Spans | chunker.py:19-20 | the chunk spans lie within the sentences, and there is at least one |
| Chunker.Render | chunker.py:14-20 | definition: each span's sentences joined by single spaces; `Chunker.RenderAppend` states one step |
| Chunker.Chunks | chunker.py:5-21 | `chunk_text` always returns at least one chunk |
| Chunker.RenderAppend | chunker.py:14 | appending a span appends the joined sentences of that span |
| Chunker.CloseStep | chunker.py:13-18 | the overflow branch (flush, carry the overlap, add the sentence) preserves the loop's correspondence with Pack |
| Chunker.ExtendStep | chunker.py:17-18 | the fitting branch preserves the correspondence |
| Chunker.FinishStep | chunker.py:19-21 | the final flush produces exactly the specified chunks, and the current chunk is non-empty then |
| Chunker.ChunkText | chunker.py:5-21 | the loop returns `Chunks(text, max_tokens, overlap)` |
| Chunker.PackStep | chunker.py:11-18 | one sentence closes at most one chunk and leaves earlier chunks untouched |
| Chunker.PackGrows | chunker.py:11-18 | later states extend earlier ones: closed chunks never change |
| Chunker.ClosedRun | chunker.py:13 | a chunk was closed only because its words plus the next sentence's exceed `max_tokens` |
| Chunker.CarriedRun | chunker.py:15-17 | the chunk after a closed one starts at the carried overlap and reaches past the closing sentence |
| Chunker.FittedSentence | chunker.py:13-17 | every sentence added without a flush fitted within `max_tokens` |
| Chunker.Covered | chunker.py:11-18 | every sentence seen belongs to some chunk |
| Chunker.SmallOverlapKeepsAll | chunker.py:15 | with overlap below 10 every chunk starts at the first sentence (the `[-0:]` slice keeps everything) |
| Chunker.SpansRunAt | chunker.py:19-20 | the k-th span is the k-th run of the packing state |
| Chunker.BlankText | chunker.py:8-21 | blank text gives `[""]`, or `["", ""]` when `max_tokens` is negative |
| Chunker.ChunkClosed | chunker.py:13-16 | every chunk but the last is its sentences joined by spaces, overflows with the next sentence, and the next chunk starts at the carried overlap |
| Chunker.ChunkFitted | chunker.py:13-17 | each sentence added to a chunk after it opened fits within `max_tokens` |
| Chunker.RunOverLimit | chunker.py:13-17 | a chunk that exceeds the limit holds no sentence added after it opened |
| Chunker.OverLimitChunkExample | chunker.py:5-21 | with `max_tokens` 1, `"a. b."` chunks to `["a.", "a. b."]`, whose second chunk has 2 words: over-limit chunks do occur |
| Chunker.ChunkOverLimit | chunker.py:13-17 | a chunk over `max_tokens` consists only of carried sentences and at most the one that opened it |
| Chunker.SentenceInChunk | chunker.py:11-20 | every sentence appears in some chunk |
| Chunker.FirstChunk | chunker.py:13-14 | when the first sentence alone exceeds `max_tokens` the first chunk is `""`; otherwise the first chunk starts with the first sentence |
| Chunker.JoinHead | chunker.py:14 | a join begins with its first part |
| Chunker.PdfChunkIdParts | chunker.py:34 | the id `f"{page}_{i}"` splits at `_` into the page and the index |
| Chunker.PdfChunkIdInjective | chunker.py:34 | different (page, index) pairs give different ids |
| Chunker.DocxChunkIdInjective | chunker.py:48 | different indices give different `docx_0_{i}` ids |
| Chunker.PageRecordsStep | chunker.py:30-36 | one more chunk of a page appends its record with the next index |
| Chunker.RecordsOfPagesStep | chunker.py:27-36 | one more page appends its records with page number `page_num + 1` |
| Chunker.PageChunksStep | chunker.py:27-29 | one more page appends its chunks |
| Chunker.AppendPageRecords | chunker.py:30-36 | the inner loop appends the page's records in order |
| Chunker.PdfRecords | chunker.py:23-37 | definition of `process_pdf`'s result; `Chunker.PdfRecordShape`, `Chunker.PdfIdsDistinct` and `Chunker.PdfRecordsPerPage` state its properties |
| Chunker.ProcessPdf | chunker.py:23-37 | the loop returns `PdfRecords(path, pages, ...)` |
| Chunker.RecordsOfPagesShape | chunker.py:30-36 | each record carries the file name, a page in range, and the id and text of that page's i-th chunk |
| Chunker.RecordsOfPagesIdsDistinct | chunker.py:34 | ids within a file are pairwise distinct |
| Chunker.PdfRecordShape | chunker.py:28-36 | each PDF record is the i-th chunk of its page, with the base name, page `1..n` and id `f"{page}_{i}"` |
| Chunker.PdfIdsDistinct | chunker.py:34 | `process_pdf` never repeats a chunk id |
| Chunker.RecordsOfPagesCount | chunker.py:27-36 | pages with chunks give at least one record each |
| Chunker.PdfRecordsPerPage | chunker.py:27-36 | every page yields at least one record (possibly an empty one) |
| Chunker.NonBlank | chunker.py:42 | the paragraph filter keeps at most the input |
| Chunker.NonBlankKeeps | chunker.py:42 | a paragraph is kept if and only if it is present and not all whitespace |
| Chunker.NonBlankOfBlank | chunker.py:42 | only blank paragraphs leave nothing |
| Chunker.NonBlankIdempotent | chunker.py:42 | filtering twice is filtering once |
| Chunker.DocxText | chunker.py:42-43 | definition: the non-blank paragraphs joined by newlines |
| Chunker.DocxRecords | chunker.py:39-50 | definition of `process_docx`'s result; `Chunker.DocxIdsDistinct`, `Chunker.DocxIgnoresBlankParagraphs` and `Chunker.DocxAllBlank` state its properties |
| Chunker.ProcessDocx | chunker.py:39-50 | returns `DocxRecords(path, paragraphs, ...)` |
| Chunker.DocxIdsDistinct | chunker.py:48 | DOCX chunk ids are pairwise distinct |
| Chunker.DocxIgnoresBlankParagraphs | chunker.py:42-43 | blank paragraphs have no effect on the records |
| Chunker.DocxAllBlank | chunker.py:42-50 | a DOCX with only blank paragraphs still yields one empty record `docx_0_0` on page 0 (for `max_tokens >= 0`, as the defaults are) |
| Chunker.FlattenAppend | chunker.py:54-58 | the per-file records of two path lists concatenate |
| Chunker.DocumentRecordsStep | chunker.py:54-58 | one more path appends its records |
| Chunker.FileRecords | chunker.py:54-58 | definition of one path's records, dispatching on `.pdf` then `.docx`; `Chunker.FileRecordOrigin` states its property |
| Chunker.DocumentRecords | chunker.py:52-59 | definition of `process_documents`' result; `Chunker.DocumentsAppend` and `Chunker.DocumentRecordOrigin` state its properties |
| Chunker.ProcessDocuments | chunker.py:52-59 | the loop returns `DocumentRecords(paths, ...)` |
| Chunker.DocumentsAppend | chunker.py:52-59 | processing `a + b` is processing `a` then `b` |
| Chunker.FileRecordOrigin | chunker.py:55-58 | a file's records carry its base name: pages >= 1 for `.pdf`, page 0 for `.docx` (a `.pdf` check wins) |
| Chunker.DocumentRecordOrigin | chunker.py:52-59 | every record comes from one of the given paths |
| Chunker.UpperCaseExtensionSkipped | chunker.py:55-57 | the extension test is case-sensitive: `report.PDF` yields nothing |
| Config.Prompt | config.py:25-36 | definition: PROMPT_TEMPLATE with the chunk's fields (`chunk.get(key, "")`) and the question filled in; its property is stated by `Config.PromptEndsWithQuestion` |
| Config.Format | llama_cpp_interface.py:38-44 | definition of `str.format` with keyword fields; `Config.FormatAppend` states that it distributes over template concatenation |
| Config.FormatAppend | config.py:25-36 | formatting a template in two parts formats each part in turn |
| Config.PromptEndsWithQuestion | config.py:35-36 | the prompt ends with the line `User Question: {user_query}` |
| Config.ChunkText | config.py:59-75 | the copy of `chunk_text` with defaults 250/50 computes the same chunks |
| Config.ProcessPdf | config.py:77-91 | `process_pdf` with the 250/50 settings |
| Config.ProcessDocx | config.py:93-104 | `process_docx` with the 250/50 settings |
| Config.ProcessDocuments | config.py:106-113 | `process_documents` with the 250/50 settings |
| Config.OverlapKeepsFiveSentences | config.py:69 | with overlap 50 the chunk after a closed one starts with that chunk's last five sentences (all of them when it has five or fewer) and reaches past it |
| LoadAndChunk.NoneDropped | load_and_chunk.py:16-19 | when no window is blank the filter keeps every window |
| LoadAndChunk.StartIsProduct | load_and_chunk.py:16 | the k-th loop index is `k * step` |
| LoadAndChunk.AllWindowsAt | load_and_chunk.py:16 | the k-th window exists if and only if its start is below the length, and starts there |
| LoadAndChunk.Window | load_and_chunk.py:17 | definition of `" ".join(words[i:i + chunk_size])`; `LoadAndChunk.WindowSlice` states its clipping |
| LoadAndChunk.Windows | load_and_chunk.py:16-19 | definition of the kept windows; `LoadAndChunk.WindowsCount` and `LoadAndChunk.WindowsElement` state them |
| LoadAndChunk.SplitResult | load_and_chunk.py:12-20 | definition of `split_text`'s outcome; `LoadAndChunk.SplitChunk`, `LoadAndChunk.SplitCount`, `LoadAndChunk.SplitCovers` and `LoadAndChunk.SplitOverlap` state its properties |
| LoadAndChunk.WindowStep | load_and_chunk.py:17-19 | one iteration keeps the window unless blank |
| LoadAndChunk.CollectWindows | load_and_chunk.py:16-19 | the loop returns `Windows(words, chunk_size, step)` |
| LoadAndChunk.SplitText | load_and_chunk.py:12-20 | `split_text` raises ValueError when `chunk_size == overlap`, returns `[]` for a negative step, else the windows |
| LoadAndChunk.WindowKept | load_and_chunk.py:18 | a window is kept if and only if its word slice is non-empty |
| LoadAndChunk.WindowSlice | load_and_chunk.py:17 | `words[i:i+chunk_size]` is the words from `i` to `min(i + chunk_size, n)` |
| LoadAndChunk.NoWindowDropped | load_and_chunk.py:18 | for words from `split()` the blank check drops nothing |
| LoadAndChunk.WindowsCount | load_and_chunk.py:16 | there is a k-th chunk exactly when `k * step` is below the word count |
| LoadAndChunk.AllWindowsElement | load_and_chunk.py:16-17 | the k-th window starts at word `k * step` |
| LoadAndChunk.WindowsElement | load_and_chunk.py:16-19 | the k-th kept chunk is the window starting at `k * step` |
| LoadAndChunk.WindowWords | load_and_chunk.py:17 | a window is its words joined by spaces |
| LoadAndChunk.SplitChunkExists | load_and_chunk.py:16 | with a positive step the result is a list whose k-th chunk exists exactly when `k * step` is below the word count |
| LoadAndChunk.SplitChunk | load_and_chunk.py:16-19 | the k-th chunk is the words `k*step .. k*step + chunk_size` joined, and splits back to them |
| LoadAndChunk.SplitCount | load_and_chunk.py:16 | the number of chunks is `ceil(n / step)` |
| LoadAndChunk.SplitChunkWords | load_and_chunk.py:17 | the k-th chunk's words are the k-th word window |
| LoadAndChunk.SplitChunkSize | load_and_chunk.py:17 | every chunk has between 1 and `chunk_size` words |
| LoadAndChunk.StartBelow | load_and_chunk.py:16 | every position lies in some stride interval |
| LoadAndChunk.SplitCovers | load_and_chunk.py:16-19 | every word lies in some chunk |
| LoadAndChunk.SplitOverlap | load_and_chunk.py:16-17 | a chunk's words from `step` on begin the next chunk: consecutive chunks share `overlap` words |
| LoadAndChunk.ChunkWordsOverlap | load_and_chunk.py:17 | consecutive word windows overlap by `chunk_size - step` words |
| LoadAndChunk.SplitBlank | load_and_chunk.py:14-20 | blank text gives `[]`, or ValueError when `chunk_size == overlap` |
| LoadAndChunk.PageTagged | load_and_chunk.py:28-30 | definition: every page's chunks tagged with its 1-based number; `LoadAndChunk.PageTaggedShape` and `LoadAndChunk.PageTaggedOrdered` state its properties |
| LoadAndChunk.LoadedRecords | load_and_chunk.py:22-38 | definition of `load_and_chunk_pdf`'s result; `LoadAndChunk.LoadedShape`, `LoadAndChunk.LoadedOrdered` and `LoadAndChunk.LoadedTexts` state its properties |
| LoadAndChunk.RecordsAppend | load_and_chunk.py:30-36 | one page's chunks append records with the next ids |
| LoadAndChunk.PageTaggedStep | load_and_chunk.py:28-30 | one more page appends its chunks tagged with its number |
| LoadAndChunk.AppendChunks | load_and_chunk.py:30-36 | the inner loop appends one record per chunk, each with a fresh id |
| LoadAndChunk.LoadAndChunkPdf | load_and_chunk.py:22-38 | the loop returns `LoadedRecords(path, pages, newId)` |
| LoadAndChunk.PageTaggedShape | load_and_chunk.py:28-30 | each tagged chunk carries a page `1..n` and is a chunk of that page |
| LoadAndChunk.PageTaggedOrdered | load_and_chunk.py:28 | page numbers never decrease along the output |
| LoadAndChunk.LoadedShape | load_and_chunk.py:25-35 | each record has the base name, a page `1..n`, the a-th fresh id, and a chunk of that page's `split_text` |
| LoadAndChunk.LoadedOrdered | load_and_chunk.py:28 | records come in page order |
| LoadAndChunk.TaggedChunks | load_and_chunk.py:28-30 | dropping the page tags leaves every page's chunks in turn |
| LoadAndChunk.LoadedTexts | load_and_chunk.py:28-35 | the records' texts are all pages' `split_text` chunks, in order |
| LoadAndChunk.LoadedBlankPage | load_and_chunk.py:28-30 | a trailing blank page adds no records |
| LlamaInterface.Dedup | llama_cpp_interface.py:23-29 | definition of the seen-set loop's output; `LlamaInterface.DedupSubsequence`, `DedupDistinct`, `DedupCovers`, `DedupKeepsFirst` and `DedupOnlyFirst` state its properties |
| LlamaInterface.Cleaned | llama_cpp_interface.py:18-30 | definition of `clean_repetitions`; `LlamaInterface.CleanedBlank`, `CleanedNoRepeats` and `CleanedOfStripped` state its properties |
| LlamaInterface.StripAll | llama_cpp_interface.py:26 | one stripped sentence per sentence |
| LlamaInterface.LowerSetAppend | llama_cpp_interface.py:29 | the seen set grows by the new lower-cased sentence |
| LlamaInterface.DedupStep | llama_cpp_interface.py:25-29 | one iteration keeps the sentence exactly when its lower-case form is unseen |
| LlamaInterface.CleanRepetitions | llama_cpp_interface.py:18-30 | the loop returns `Cleaned(text)` |
| LlamaInterface.EmbedsAppend | llama_cpp_interface.py:25-28 | an order-preserving embedding survives appending |
| LlamaInterface.DedupSubsequence | llama_cpp_interface.py:25-28 | the kept sentences are a subsequence of the input |
| LlamaInterface.DedupDistinct | llama_cpp_interface.py:27-29 | no two kept sentences are equal ignoring case |
| LlamaInterface.DedupCovers | llama_cpp_interface.py:27-29 | every input sentence has a case-insensitive equal among the kept ones |
| LlamaInterface.DedupKeepsFirst | llama_cpp_interface.py:27-28 | each first occurrence is kept with its own casing |
| LlamaInterface.DedupOnlyFirst | llama_cpp_interface.py:27-28 | every kept sentence is the first occurrence of its lower-case form |
| LlamaInterface.NotInLowerSet | llama_cpp_interface.py:27 | a sentence unequal to all seen ones ignoring case is not in the seen set |
| LlamaInterface.DedupNoRepeats | llama_cpp_interface.py:25-29 | without repetitions nothing is dropped |
| LlamaInterface.CleanedBlank | llama_cpp_interface.py:22-30 | whitespace-only text cleans to `""` |
| LlamaInterface.CleanedNoRepeats | llama_cpp_interface.py:22-30 | without repetitions cleaning only joins the sentences with single spaces |
| LlamaInterface.CleanedOfStripped | llama_cpp_interface.py:55-60 | stripping the raw reply before cleaning changes nothing |
| LlamaInterface.GenerateAnswer | llama_cpp_interface.py:32-64 | the answer is the fixed failure message or a cleaned reply: the call never raises (`print` is assumed not to raise) |
| LlamaInterface.GenerateAnswerFailures | llama_cpp_interface.py:37-64 | a non-dict chunk, a raising model call or a reply without a first choice gives the failure message |
| LlamaInterface.ReplyText | llama_cpp_interface.py:55-59 | definition of the stripped first choice, `None` where a lookup would raise; `LlamaInterface.ReplyTextOfDictReply`, `ReplyTextOfStringReply` and `MalformedReplyText` state its cases |
| LlamaInterface.MalformedReplyText | llama_cpp_interface.py:55-59 | a non-dict reply, a reply without `"choices"`, and a first choice that is a dict without a string `"text"` give no reply text |
| LlamaInterface.GenerateAnswerMalformedReply | llama_cpp_interface.py:55-64 | each of those malformed replies gives the fixed failure message |
| LlamaInterface.ReplyTextOfDictReply | llama_cpp_interface.py:55-59 | `{"choices": [{"text": t}]}` yields `t.strip()` |
| LlamaInterface.ReplyTextOfStringReply | llama_cpp_interface.py:55-59 | `{"choices": [t]}` yields `t.strip()` |
| LlamaInterface.GenerateAnswerFromDictReply | llama_cpp_interface.py:38-60 | a dict-shaped reply with text t answers `clean_repetitions(t)` |
| LlamaInterface.GenerateAnswerFromStringReply | llama_cpp_interface.py:38-60 | a string reply t answers `clean_repetitions(t)` |
| Retriever.Record | retriever.py:29-34 | each built record has exactly the four keys |
| Retriever.Kept | retriever.py:25-36 | at most one record per payload, each with the four keys |
| Retriever.Retrieved | retriever.py:18-40 | every returned record has a `chunk_text` key |
| Retriever.RetrieveTopKChunks | retriever.py:5-40 | the loop returns `Retrieved(search(query_vector, top_k))` |
| Retriever.RetrievedFallbacks | retriever.py:18-40 | a raising search, `None` or an empty result gives `[]` |
| Retriever.RecordFields | retriever.py:30-33 | each field is the payload's value, or `""` when missing |
| Retriever.RecordIgnoresExtraKeys | retriever.py:29-34 | payload keys outside the four do not affect the record |
| Retriever.KeptAtSkip | retriever.py:28 | a non-dict payload adds nothing |
| Retriever.KeptAtKeep | retriever.py:28-34 | a dict payload adds its position and its record |
| Retriever.KeptExactlyDicts | retriever.py:25-36 | the records are exactly those of the dict payloads, in search order |
| AnswerQuestion.ValidChunk | answer_question.py:38 | definition of the check `isinstance(chunk, dict) and "chunk_text" in chunk` |
| AnswerQuestion.AnswerQuestion | answer_question.py:5-58 | a returned source always has the four keys |
| AnswerQuestion.EmbedFailure | answer_question.py:9-16 | a failed embedding returns the embedding message with no source, whatever retrieval and generation would do |
| AnswerQuestion.RetrievalOutcomes | answer_question.py:19-42 | a raising retrieval, no chunks, and an invalid first chunk give their fixed messages without source |
| AnswerQuestion.SourceMissingExactly | answer_question.py:9-58 | the source is missing if and only if the call returned early |
| AnswerQuestion.SourceFromSelected | answer_question.py:36-58 | otherwise the source is taken from the first chunk and the answer is the model's, or the failure message if it raised |
| AnswerQuestion.OnlyFirstCandidate | answer_question.py:36 | only the first retrieved chunk affects the answer |
| AnswerQuestion.AsValues | answer_question.py:20 | one dict value per retrieved record |
| AnswerQuestion.RetrieverRulesOutFailures | answer_question.py:38 | with the real retriever the invalid-chunk branch is unreachable |
| AnswerQuestion.GenerationNeverRaises | answer_question.py:44-48 | with the real `generate_answer` the answer is a cleaned reply or the failure message |
| QueryMain.AnswerQuestion | main.py:18-68 | a returned source always has the four keys |
| QueryMain.EmbedFailure | main.py:21-28 | a failed embedding returns main.py's embedding message with no source |
| QueryMain.RetrievalOutcomes | main.py:31-52 | retrieval failure, no chunks and an invalid chunk give main.py's messages |
| QueryMain.SourceMissingExactly | main.py:21-68 | the source is missing if and only if the call returned early |
| QueryMain.SourceFromSelected | main.py:46-68 | the source comes from the first chunk; the answer is the model's or the failure message |
| QueryMain.OnlyFirstCandidate | main.py:46 | only the first retrieved chunk matters |
| QueryMain.AgreesWithAnswerQuestion | main.py:18-68 | when neither returns early, main.py's function agrees with answer_question.py's |
| App.LeadingDigits | app.py:189 | the length of the leading digit run is at most the line's length |
| App.LeadingDigitsRun | app.py:189 | that many leading characters are digits and the next is not |
| App.LeadingDigitsExact | app.py:189 | a maximal digit prefix has exactly that length |
| App.StartsNumbered | app.py:189 | definition of `re.match(r'^\d+\.', l)` |
| App.ContainsNumbering | app.py:181 | definition: `\d+\.` occurs somewhere |
| App.InsertBreaks | app.py:181 | definition of `re.sub(r'(\d+\.)', r'\n\1', s)`; `App.InsertBreaksOnlyAddsNewlines`, `InsertBreaksIdentity` and `BreakBeforeNumber` state its properties |
| App.InsertBreaksIdentity | app.py:181 | without `\d+\.` in the text, `re.sub` changes nothing |
| App.WithoutNewlinesAppend | app.py:181 | removing newlines distributes over concatenation |
| App.InsertBreaksStep | app.py:181 | `re.sub` proceeds by one digit run or character at a time, adding only newlines: a numbered run with its dot, a run not followed by a dot, or one other character; a step never stops inside a digit run |
| App.InsertBreaksOnlyAddsNewlines | app.py:181 | apart from newlines, the substitution leaves the answer unchanged |
| App.BreakAtStart | app.py:181 | a numbered start gets a newline before it, and the item up to its dot comes through unchanged |
| App.BreakAtFirstRun | app.py:181 | when the digit at i and its dot end the numbered item the text starts with, the newline goes in front of the whole text |
| App.BreakBeforeNumber | app.py:181 | for a digit at i followed by a dot, the output has a newline directly before the whole digit run j..i that holds it (j is 0 or follows a non-digit): the output before the newline is the input before j, apart from newlines, and the text after it begins with that run and its dot, unchanged, and is a numbered item |
| App.NonBlankStripped | app.py:182 | the line filter keeps at most the input |
| App.WorkingLines | app.py:182 | definition of `[l.strip() for l in ans.split('\n') if l.strip()]`; `App.WorkingLinesStripped` and `App.WorkingLinesNoNewline` state its properties |
| App.WorkingLinesStripped | app.py:182 | every working line is non-empty and stripped |
| App.NonBlankStrippedAppend | app.py:182 | the filter distributes over concatenation |
| App.StripKeepsAbsent | app.py:182 | stripping adds no character |
| App.StripKeepsPrefix | app.py:182 | a stripped line keeps a prefix ending in non-whitespace |
| App.WorkingLinesNoNewline | app.py:182 | no working line contains a newline |
| App.FirstPartKeepsPrefix | app.py:182 | the first part of a split keeps a separator-free prefix |
| App.MarkerLength | app.py:183 | the bullet marker match is at most the line's length |
| App.IsBullet | app.py:183-184 | definition: `bullet_pat.match(l)` succeeds |
| App.AnyBullet | app.py:184 | definition of `found_bullet` |
| App.BulletLine | app.py:188-192 | definition of one output line of the bullet layout; `App.BulletLineShape` states its shape |
| App.BulletLines | app.py:187-192 | one output line per working line |
| App.Dashed | app.py:194-195 | one dashed line per working line |
| App.LayOutBullets | app.py:186-193 | the loop returns `BulletLines(lines)` |
| App.Formatted | app.py:179-196 | definition of `pretty_bot_answer`; `App.NumberingMeansBullets`, `BulletLayoutLines`, `DashedLayoutLines` and `PlainAnswerUnchanged` state its three branches |
| App.PrettyBotAnswer | app.py:179-196 | the method returns `Formatted(ans)` |
| App.BulletLineShape | app.py:188-192 | a non-numbered line becomes `"- "` and the line after its marker and whitespace, or `"- "` and the whole line when it has no marker |
| App.LayoutLinesNoNewline | app.py:187-195 | laid-out lines contain no newline |
| App.NumberedFirstLine | app.py:181-182 | text that starts numbered gives a first working line that starts numbered |
| App.NumberingMeansBullets | app.py:181-185 | if the stripped answer contains `\d+\.`, the bullet layout is chosen |
| App.BulletLayoutLines | app.py:185-193 | the bullet layout's lines are exactly the laid-out working lines |
| App.DashedLayoutLines | app.py:194-195 | without bullets and with more than two lines, the output lines are the dashed working lines |
| App.PlainAnswerUnchanged | app.py:180-196 | otherwise the answer is returned just stripped |

## Left out

- Reading PDF and DOCX files (`fitz`, `python-docx`): page texts and paragraph texts are parameters.
- `uuid.uuid4()`: an id generator `newId`, indexed by the record's position, is a parameter; uniqueness of uuids is not modelled.
- The embedding model, the Qdrant client and `search`, and the llama.cpp model are parameters returning an `Outcome`. The model's `max_tokens`, `temperature`, `stop` and `echo` arguments are not modelled, since their effect lies inside the model.
- `print` calls are assumed not to raise, and a raising `print` is not modelled. One could raise, for example `UnicodeEncodeError` for the emoji when stdout cannot encode them. A raise at answer_question.py:6 or main.py:19 would escape the function. One at retriever.py:16 is caught at answer_question.py:21-26 and gives the retrieval-failure answer. One inside an `except` handler, such as llama_cpp_interface.py:63, would escape that handler.
- The Streamlit UI of app.py other than `pretty_bot_answer`, `ingest_documents` and the command-line loop in main.py, `process_all_pdfs` in load_and_chunk.py, embedder.py, qdrant_helper.py and data_loader.py are not part of this model.
- Text.Lower: `str.lower()` is modelled on ASCII letters only, so it always keeps the length; Python's Unicode lower-casing can change it (`'İ'.lower()` has two characters).
- App.InsertBreaks, App.StartsNumbered, App.MarkerLength, App.LeadingDigits: `\d` is modelled as the ASCII digits `0`-`9` only; Python's `\d` on `str` also matches other Unicode decimal digits, so an answer such as `٣. item` is laid out differently.
- LlamaInterface.Cleaned: `str.lower()` is modelled on ASCII letters only (`Text.Lower`), because Unicode case mapping is outside Dafny's `char` reasoning; deduplication of non-ASCII sentences differing only in case is not captured.
- Values.Show: `str()` of a list, a dict or a float is a placeholder string, because those renderings reach the prompt only through malformed chunk fields.
- Retriever.Retrieved: a search result that is neither a list nor `None` is treated as an empty list; Python would iterate it or raise, which the `except` would turn into `[]` in most cases.
- Config.Format: a placeholder with no field gives `""` where Python raises KeyError; `Config.Prompt` always supplies every field, so the case cannot arise.
- Floating-point query vectors are `seq<real>` and are only passed through.
