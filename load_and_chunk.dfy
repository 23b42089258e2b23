/** load_and_chunk.py: the word-window splitter split_text and the page
    loop of load_and_chunk_pdf, which turns every page of a PDF into
    records with a fresh random id each. */
module LoadAndChunk {
  import opened Text
  import Chunker

  /** Words per chunk. */
  const CHUNK_SIZE: int := 300
  /** Words shared by consecutive chunks. */
  const CHUNK_OVERLAP: int := 50

  /** What split_text returns: its chunks, or the ValueError that range()
      raises when chunk_size - overlap is 0. */
  datatype Split = Split(chunks: seq<string>) | ValueError

  function Min(a: int, b: int): int {
    if a <= b then a else b
  }

  // ------------------------------------------- windows at a fixed stride

  /** window(i), window(i + step), ... for every start below n, keeping
      those that keep accepts. */
  function Collect(window: nat -> string, keep: string -> bool, n: nat, step: int, i: nat): seq<string>
    requires step > 0
    decreases n - i
  {
    if i >= n then []
    else (if keep(window(i)) then [window(i)] else []) + Collect(window, keep, n, step, i + step)
  }

  /** Every window from i, kept or not. */
  function AllWindows(window: nat -> string, n: nat, step: int, i: nat): seq<string>
    requires step > 0
    decreases n - i
  {
    if i >= n then [] else [window(i)] + AllWindows(window, n, step, i + step)
  }

  /** The loop state of split_text: chunks holds the windows before i. */
  predicate CollectState(window: nat -> string, keep: string -> bool, n: nat, step: int, i: nat,
                         chunks: seq<string>, all: seq<string>)
    requires step > 0
  {
    all == chunks + Collect(window, keep, n, step, i)
  }

  lemma StartState(window: nat -> string, keep: string -> bool, n: nat, step: int, all: seq<string>)
    requires step > 0 && all == Collect(window, keep, n, step, 0)
    ensures CollectState(window, keep, n, step, 0, [], all)
  {
    assert [] + all == all;
  }

  lemma KeepStep(window: nat -> string, keep: string -> bool, n: nat, step: int, i: nat,
                 chunks: seq<string>, all: seq<string>)
    requires step > 0 && i < n && keep(window(i))
    requires CollectState(window, keep, n, step, i, chunks, all)
    ensures CollectState(window, keep, n, step, i + step, chunks + [window(i)], all)
  {
    var rest := Collect(window, keep, n, step, i + step);
    assert chunks + ([window(i)] + rest) == (chunks + [window(i)]) + rest;
  }

  lemma SkipStep(window: nat -> string, keep: string -> bool, n: nat, step: int, i: nat,
                 chunks: seq<string>, all: seq<string>)
    requires step > 0 && i < n && !keep(window(i))
    requires CollectState(window, keep, n, step, i, chunks, all)
    ensures CollectState(window, keep, n, step, i + step, chunks, all)
  {
    var rest := Collect(window, keep, n, step, i + step);
    assert [] + rest == rest;
  }

  lemma EndState(window: nat -> string, keep: string -> bool, n: nat, step: int, i: nat,
                 chunks: seq<string>, all: seq<string>)
    requires step > 0 && i >= n && CollectState(window, keep, n, step, i, chunks, all)
    ensures chunks == all
  {
    assert chunks + [] == chunks;
  }

  /** When keep accepts every window, none is dropped. */
  lemma {:induction false} NoneDropped(window: nat -> string, keep: string -> bool, n: nat, step: int, i: nat)
    requires step > 0
    requires forall j: nat | i <= j < n :: keep(window(j))
    ensures Collect(window, keep, n, step, i) == AllWindows(window, n, step, i)
    decreases n - i
  {
    if i < n {
      assert keep(window(i));
      NoneDropped(window, keep, n, step, i + step);
    }
  }

  /** k * step, the start of the k-th window, counted up one step at a time. */
  function Start(k: nat, step: nat): nat {
    if k == 0 then 0 else Start(k - 1, step) + step
  }

  lemma {:induction false} StartIsProduct(k: nat, step: nat)
    ensures Start(k, step) == k * step
  {
    if k > 0 {
      StartIsProduct(k - 1, step);
      assert k * step == (k - 1) * step + step;
    }
  }

  /** The k-th window from i exists exactly when its start is below n. */
  lemma {:induction false} AllWindowsAt(window: nat -> string, n: nat, step: nat, i: nat, k: nat)
    requires step > 0
    ensures k < |AllWindows(window, n, step, i)| <==> i + Start(k, step) < n
    ensures i + Start(k, step) < n ==> AllWindows(window, n, step, i)[k] == window(i + Start(k, step))
    decreases k
  {
    if i < n && k > 0 {
      AllWindowsAt(window, n, step, i + step, k - 1);
      assert i + Start(k, step) == (i + step) + Start(k - 1, step);
    }
  }

  // ----------------------------------------------------------- split_text

  /** " ".join(words[i:i + chunk_size]). */
  function Window(words: seq<string>, i: nat, chunkSize: int): string {
    Join(" ", PySlice(words, i, i + chunkSize))
  }

  /** The window of words starting at each position. */
  function WindowAt(words: seq<string>, chunkSize: int): nat -> string {
    (i: nat) => Window(words, i, chunkSize)
  }

  /** The test split_text applies before keeping a chunk. */
  predicate NotBlank(chunk: string) {
    Strip(chunk) != ""
  }

  /** The non-blank windows starting at 0, step, 2 * step, ... below |words|. */
  function Windows(words: seq<string>, chunkSize: int, step: int): seq<string>
    requires step > 0
  {
    Collect(WindowAt(words, chunkSize), NotBlank, |words|, step, 0)
  }

  /** split_text(text, chunk_size, overlap). */
  function SplitResult(text: string, chunkSize: int, overlap: int): Split {
    var step := chunkSize - overlap;
    if step == 0 then ValueError
    else if step < 0 then Split([])
    else Split(Windows(Words(text), chunkSize, step))
  }

  /** One iteration of split_text's loop: keep the window at i unless it
      is blank. */
  method WindowStep(words: seq<string>, chunkSize: int, step: int, i: nat, chunks: seq<string>, ghost all: seq<string>)
    returns (chunks': seq<string>)
    requires step > 0 && i < |words|
    requires CollectState(WindowAt(words, chunkSize), NotBlank, |words|, step, i, chunks, all)
    ensures CollectState(WindowAt(words, chunkSize), NotBlank, |words|, step, i + step, chunks', all)
  {
    var chunk := Window(words, i, chunkSize);
    assert WindowAt(words, chunkSize)(i) == chunk;
    if Strip(chunk) != "" {
      KeepStep(WindowAt(words, chunkSize), NotBlank, |words|, step, i, chunks, all);
      chunks' := chunks + [chunk];
    } else {
      SkipStep(WindowAt(words, chunkSize), NotBlank, |words|, step, i, chunks, all);
      chunks' := chunks;
    }
  }

  /** The loop of split_text over the window starts 0, step, 2 * step, ... */
  method CollectWindows(words: seq<string>, chunkSize: int, step: int) returns (chunks: seq<string>)
    requires step > 0
    ensures chunks == Windows(words, chunkSize, step)
  {
    chunks := [];
    var i := 0;
    ghost var all := Windows(words, chunkSize, step);
    StartState(WindowAt(words, chunkSize), NotBlank, |words|, step, all);
    while i < |words|
      invariant 0 <= i
      invariant CollectState(WindowAt(words, chunkSize), NotBlank, |words|, step, i, chunks, all)
      decreases |words| - i
    {
      chunks := WindowStep(words, chunkSize, step, i, chunks, all);
      i := i + step;
    }
    EndState(WindowAt(words, chunkSize), NotBlank, |words|, step, i, chunks, all);
  }

  method SplitText(text: string, chunkSize: int := CHUNK_SIZE, overlap: int := CHUNK_OVERLAP)
    returns (r: Split)
    ensures r == SplitResult(text, chunkSize, overlap)
  {
    var step := chunkSize - overlap;
    if step == 0 {
      return ValueError;
    }
    var words := Words(text);
    var chunks: seq<string> := [];
    if step > 0 {
      chunks := CollectWindows(words, chunkSize, step);
    }
    r := Split(chunks);
  }

  /** A window is kept exactly when its slice of words is not empty. */
  lemma WindowKept(words: seq<string>, i: nat, chunkSize: int)
    requires forall k | 0 <= k < |words| :: IsWord(words[k])
    ensures NotBlank(Window(words, i, chunkSize)) <==> PySlice(words, i, i + chunkSize) != []
  {
    var slice := PySlice(words, i, i + chunkSize);
    assert forall k | 0 <= k < |slice| :: IsWord(slice[k]);
    JoinWordsRoundTrip(slice);
    NoWordsIffBlank(Window(words, i, chunkSize));
  }

  /** The window starting at i is the slice words[i:i + chunk_size] clipped
      to the end. */
  lemma WindowSlice(words: seq<string>, i: nat, chunkSize: int)
    requires chunkSize > 0 && i < |words|
    ensures Window(words, i, chunkSize) == Join(" ", words[i..Min(i + chunkSize, |words|)])
  {
  }

  /** With a positive chunk size no window of words is blank, so split_text
      keeps every one. */
  lemma NoWindowDropped(words: seq<string>, chunkSize: int, step: int)
    requires chunkSize > 0 && step > 0
    requires forall j | 0 <= j < |words| :: IsWord(words[j])
    ensures Windows(words, chunkSize, step) == AllWindows(WindowAt(words, chunkSize), |words|, step, 0)
  {
    forall j: nat | 0 <= j < |words|
      ensures NotBlank(WindowAt(words, chunkSize)(j))
    {
      WindowKept(words, j, chunkSize);
    }
    NoneDropped(WindowAt(words, chunkSize), NotBlank, |words|, step, 0);
  }

  // ----------------------------------------------------- split_text's result

  /** The k-th window of a list of words exists exactly when its start is
      inside the list. */
  lemma WindowsCount(words: seq<string>, chunkSize: int, step: nat, k: nat)
    requires chunkSize > 0 && step > 0
    requires forall j | 0 <= j < |words| :: IsWord(words[j])
    ensures k < |Windows(words, chunkSize, step)| <==> Start(k, step) < |words|
  {
    NoWindowDropped(words, chunkSize, step);
    AllWindowsAt(WindowAt(words, chunkSize), |words|, step, 0, k);
  }

  /** The words of the k-th chunk, when it exists. */
  function ChunkWords(words: seq<string>, chunkSize: int, step: nat, k: nat): seq<string>
    requires chunkSize > 0 && Start(k, step) < |words|
  {
    words[Start(k, step)..Min(Start(k, step) + chunkSize, |words|)]
  }

  /** The k-th of all windows of a list of words is the window at its start. */
  lemma AllWindowsElement(words: seq<string>, chunkSize: int, step: nat, k: nat)
    requires step > 0 && Start(k, step) < |words|
    ensures k < |AllWindows(WindowAt(words, chunkSize), |words|, step, 0)|
    ensures AllWindows(WindowAt(words, chunkSize), |words|, step, 0)[k] == Window(words, Start(k, step), chunkSize)
  {
    var start := Start(k, step);
    var window := WindowAt(words, chunkSize);
    AllWindowsAt(window, |words|, step, 0, k);
    assert AllWindows(window, |words|, step, 0)[k] == window(start);
    WindowAtApply(words, chunkSize, start);
  }

  lemma WindowAtApply(words: seq<string>, chunkSize: int, i: nat)
    ensures WindowAt(words, chunkSize)(i) == Window(words, i, chunkSize)
  {
  }

  /** The k-th window of a list of words is the window at its start. */
  lemma WindowsElement(words: seq<string>, chunkSize: int, step: nat, k: nat)
    requires chunkSize > 0 && step > 0
    requires forall j | 0 <= j < |words| :: IsWord(words[j])
    requires Start(k, step) < |words|
    ensures k < |Windows(words, chunkSize, step)|
    ensures Windows(words, chunkSize, step)[k] == Window(words, Start(k, step), chunkSize)
  {
    NoWindowDropped(words, chunkSize, step);
    AllWindowsElement(words, chunkSize, step, k);
  }

  /** The window at the k-th start joins the k-th chunk's words. */
  lemma WindowWords(words: seq<string>, chunkSize: int, step: nat, k: nat)
    requires chunkSize > 0 && Start(k, step) < |words|
    ensures Window(words, Start(k, step), chunkSize) == Join(" ", ChunkWords(words, chunkSize, step, k))
  {
    WindowSlice(words, Start(k, step), chunkSize);
  }

  /** With chunk_size > 0 and a positive step (chunk_size - overlap), the
      k-th chunk exists exactly when its start k * step is inside the text. */
  lemma SplitChunkExists(text: string, chunkSize: int, overlap: int, k: nat)
    requires chunkSize > 0 && chunkSize > overlap
    ensures SplitResult(text, chunkSize, overlap).Split?
    ensures k < |SplitResult(text, chunkSize, overlap).chunks| <==> Start(k, chunkSize - overlap) < |Words(text)|
  {
    WindowsCount(Words(text), chunkSize, chunkSize - overlap, k);
  }

  /** The k-th chunk is " ".join of the words from its start on, at most
      chunk_size of them, and splitting it gives those words back. */
  lemma SplitChunk(text: string, chunkSize: int, overlap: int, k: nat)
    requires chunkSize > 0 && chunkSize > overlap
    requires Start(k, chunkSize - overlap) < |Words(text)|
    ensures SplitResult(text, chunkSize, overlap).Split?
    ensures k < |SplitResult(text, chunkSize, overlap).chunks|
    ensures SplitResult(text, chunkSize, overlap).chunks[k]
      == Join(" ", ChunkWords(Words(text), chunkSize, chunkSize - overlap, k))
    ensures Words(SplitResult(text, chunkSize, overlap).chunks[k])
      == ChunkWords(Words(text), chunkSize, chunkSize - overlap, k)
  {
    var words := Words(text);
    var step := chunkSize - overlap;
    WindowsElement(words, chunkSize, step, k);
    WindowWords(words, chunkSize, step, k);
    var slice := ChunkWords(words, chunkSize, step, k);
    assert forall j | 0 <= j < |slice| :: IsWord(slice[j]);
    JoinWordsRoundTrip(slice);
  }

  /** The number of chunks is ceil(len(words) / step): the least count
      whose starts reach past the last word. */
  lemma SplitCount(text: string, chunkSize: int, overlap: int)
    requires chunkSize > 0 && chunkSize > overlap
    ensures var r := SplitResult(text, chunkSize, overlap);
      var step := chunkSize - overlap;
      r.Split?
      && Start(|r.chunks|, step) >= |Words(text)|
      && (|r.chunks| == 0 || Start(|r.chunks| - 1, step) < |Words(text)|)
  {
    var words := Words(text);
    var step := chunkSize - overlap;
    var n := |Windows(words, chunkSize, step)|;
    WindowsCount(words, chunkSize, step, n);
    if n > 0 {
      WindowsCount(words, chunkSize, step, n - 1);
    }
  }

  /** Splitting the k-th chunk gives the words of its window. */
  lemma SplitChunkWords(text: string, chunkSize: int, overlap: int, k: nat)
    requires chunkSize > 0 && chunkSize > overlap
    requires Start(k, chunkSize - overlap) < |Words(text)|
    ensures k < |SplitResult(text, chunkSize, overlap).chunks|
    ensures Words(SplitResult(text, chunkSize, overlap).chunks[k])
      == ChunkWords(Words(text), chunkSize, chunkSize - overlap, k)
  {
    SplitChunk(text, chunkSize, overlap, k);
  }

  /** Every chunk holds between 1 and chunk_size words. */
  lemma SplitChunkSize(text: string, chunkSize: int, overlap: int, k: nat)
    requires chunkSize > 0 && chunkSize > overlap
    requires k < |SplitResult(text, chunkSize, overlap).chunks|
    ensures 1 <= WordCount(SplitResult(text, chunkSize, overlap).chunks[k]) <= chunkSize
  {
    SplitChunkExists(text, chunkSize, overlap, k);
    SplitChunk(text, chunkSize, overlap, k);
  }

  /** Some window start is at most step words before j. */
  lemma {:induction false} StartBelow(j: nat, step: nat)
    requires step > 0
    ensures exists k: nat :: Start(k, step) <= j < Start(k, step) + step
    decreases j
  {
    if j < step {
      assert Start(0, step) == 0;
    } else {
      StartBelow(j - step, step);
      var k: nat :| Start(k, step) <= j - step < Start(k, step) + step;
      assert Start(k + 1, step) == Start(k, step) + step;
    }
  }

  /** Word j lies in the k-th window: k * step <= j < k * step + chunk_size. */
  predicate InWindow(k: nat, chunkSize: int, overlap: int, j: nat)
    requires chunkSize >= overlap
  {
    Start(k, chunkSize - overlap) <= j < Start(k, chunkSize - overlap) + chunkSize
  }

  /** With a non-negative overlap no word is lost: each lies in some chunk. */
  lemma SplitCovers(text: string, chunkSize: int, overlap: int, j: nat)
    requires 0 <= overlap < chunkSize
    requires j < |Words(text)|
    ensures exists k: nat ::
      k < |SplitResult(text, chunkSize, overlap).chunks| && InWindow(k, chunkSize, overlap, j)
  {
    var step := chunkSize - overlap;
    StartBelow(j, step);
    var k: nat :| Start(k, step) <= j < Start(k, step) + step;
    SplitChunkExists(text, chunkSize, overlap, k);
    assert InWindow(k, chunkSize, overlap, j);
  }

  /** With a non-negative overlap, what a chunk holds past its first step
      words starts the next chunk: consecutive chunks share the last
      overlap words of a full chunk. */
  lemma SplitOverlap(text: string, chunkSize: int, overlap: int, k: nat)
    requires 0 <= overlap < chunkSize
    requires k + 1 < |SplitResult(text, chunkSize, overlap).chunks|
    ensures var cs := SplitResult(text, chunkSize, overlap).chunks;
      chunkSize - overlap <= |Words(cs[k])|
      && Words(cs[k])[chunkSize - overlap..] <= Words(cs[k + 1])
  {
    var cs := SplitResult(text, chunkSize, overlap).chunks;
    var step := chunkSize - overlap;
    SplitChunkExists(text, chunkSize, overlap, k + 1);
    ChunkWordsOverlap(Words(text), chunkSize, step, k);
    SplitChunkWords(text, chunkSize, overlap, k);
    SplitChunkWords(text, chunkSize, overlap, k + 1);
  }

  /** Past its first step words, a window's words start the next window. */
  lemma ChunkWordsOverlap(words: seq<string>, chunkSize: int, step: nat, k: nat)
    requires 0 < step <= chunkSize
    requires Start(k + 1, step) < |words|
    ensures Start(k, step) < |words|
    ensures step <= |ChunkWords(words, chunkSize, step, k)|
    ensures ChunkWords(words, chunkSize, step, k)[step..] <= ChunkWords(words, chunkSize, step, k + 1)
  {
    assert Start(k + 1, step) == Start(k, step) + step;
  }

  /** Blank text gives no chunk unless range() raises. */
  lemma SplitBlank(text: string, chunkSize: int, overlap: int)
    requires AllSpace(text)
    ensures SplitResult(text, chunkSize, overlap) == if chunkSize == overlap then ValueError else Split([])
  {
    NoWordsIffBlank(text);
  }

  // --------------------------------------------------- load_and_chunk_pdf

  /** split_text(text) with the defaults, whose step 250 never raises. */
  function DefaultSplit(text: string): seq<string> {
    SplitResult(text, CHUNK_SIZE, CHUNK_OVERLAP).chunks
  }

  /** The chunks of one page, each tagged with the page number. */
  function Tag(page: nat, chunks: seq<string>): seq<(nat, string)> {
    seq(|chunks|, i requires 0 <= i < |chunks| => (page, chunks[i]))
  }

  /** Every chunk of every page, in order, tagged with its page number
      counted from 1; split gives the chunks of one page. */
  function PageTagged(pages: seq<string>, split: string -> seq<string>): seq<(nat, string)>
    decreases |pages|
  {
    if pages == [] then []
    else PageTagged(pages[..|pages| - 1], split) + Tag(|pages|, split(pages[|pages| - 1]))
  }

  /** Records for tagged chunks; the k-th record gets newId(k), the k-th
      value uuid4 returns. */
  function Records(filename: string, tagged: seq<(nat, string)>, newId: nat -> string): seq<Chunker.ChunkRecord> {
    seq(|tagged|, k requires 0 <= k < |tagged| => Chunker.ChunkRecord(filename, tagged[k].0, newId(k), tagged[k].1))
  }

  /** load_and_chunk_pdf(pdf_path) when the PDF's pages hold the texts pages. */
  function LoadedRecords(path: string, pages: seq<string>, newId: nat -> string): seq<Chunker.ChunkRecord> {
    Records(BaseName(path), PageTagged(pages, DefaultSplit), newId)
  }

  /** The records appended for one page, the first of them the first-th id drawn. */
  function NewRecords(filename: string, page: nat, chunks: seq<string>, newId: nat -> string, first: nat)
    : seq<Chunker.ChunkRecord>
  {
    seq(|chunks|, i requires 0 <= i < |chunks| => Chunker.ChunkRecord(filename, page, newId(first + i), chunks[i]))
  }

  lemma RecordsAppend(filename: string, tagged: seq<(nat, string)>, page: nat, chunks: seq<string>, newId: nat -> string)
    ensures Records(filename, tagged + Tag(page, chunks), newId)
      == Records(filename, tagged, newId) + NewRecords(filename, page, chunks, newId, |tagged|)
  {
  }

  lemma PageTaggedStep(pages: seq<string>, split: string -> seq<string>, n: nat)
    requires n < |pages|
    ensures PageTagged(pages[..n + 1], split) == PageTagged(pages[..n], split) + Tag(n + 1, split(pages[n]))
  {
    assert pages[..n + 1][..n] == pages[..n];
  }

  /** The inner loop of load_and_chunk_pdf: one record per chunk of a page,
      each with a freshly drawn id. */
  method AppendChunks(allChunks: seq<Chunker.ChunkRecord>, filename: string, page: nat, chunks: seq<string>,
                      newId: nat -> string)
    returns (result: seq<Chunker.ChunkRecord>)
    ensures result == allChunks + NewRecords(filename, page, chunks, newId, |allChunks|)
  {
    result := allChunks;
    for i := 0 to |chunks|
      invariant result == allChunks + NewRecords(filename, page, chunks[..i], newId, |allChunks|)
    {
      result := result + [Chunker.ChunkRecord(filename, page, newId(|result|), chunks[i])];
    }
    assert chunks[..|chunks|] == chunks;
  }

  /** load_and_chunk_pdf: the pages are what the PDF library extracts from
      the file, and newId(k) is the id uuid4 returns on its k-th call. */
  method LoadAndChunkPdf(path: string, pages: seq<string>, newId: nat -> string)
    returns (allChunks: seq<Chunker.ChunkRecord>)
    ensures allChunks == LoadedRecords(path, pages, newId)
  {
    var filename := BaseName(path);
    allChunks := [];
    ghost var tagged: seq<(nat, string)> := [];
    for pageNumber := 1 to |pages| + 1
      invariant tagged == PageTagged(pages[..pageNumber - 1], DefaultSplit)
      invariant allChunks == Records(filename, tagged, newId)
    {
      var page := pages[pageNumber - 1];
      var split := SplitText(page);
      var chunks := split.chunks;
      PageTaggedStep(pages, DefaultSplit, pageNumber - 1);
      RecordsAppend(filename, tagged, pageNumber, chunks, newId);
      allChunks := AppendChunks(allChunks, filename, pageNumber, chunks, newId);
      tagged := tagged + Tag(pageNumber, chunks);
    }
    assert pages[..|pages|] == pages;
  }

  /** Every tagged chunk names a page from 1 to the page count and is one
      of that page's chunks. */
  lemma {:induction false} PageTaggedShape(pages: seq<string>, split: string -> seq<string>, a: nat)
    requires a < |PageTagged(pages, split)|
    ensures var t := PageTagged(pages, split)[a];
      1 <= t.0 <= |pages| && t.1 in split(pages[t.0 - 1])
    decreases |pages|
  {
    var n := |pages|;
    var before := PageTagged(pages[..n - 1], split);
    if a < |before| {
      PageTaggedShape(pages[..n - 1], split, a);
      assert PageTagged(pages, split)[a] == before[a];
      assert pages[..n - 1][before[a].0 - 1] == pages[before[a].0 - 1];
    } else {
      assert PageTagged(pages, split)[a] == Tag(n, split(pages[n - 1]))[a - |before|];
    }
  }

  /** Records come in page order. */
  lemma {:induction false} PageTaggedOrdered(pages: seq<string>, split: string -> seq<string>, a: nat, b: nat)
    requires a <= b < |PageTagged(pages, split)|
    ensures PageTagged(pages, split)[a].0 <= PageTagged(pages, split)[b].0
    decreases |pages|
  {
    var n := |pages|;
    var before := PageTagged(pages[..n - 1], split);
    var all := PageTagged(pages, split);
    var last := Tag(n, split(pages[n - 1]));
    if b < |before| {
      PageTaggedOrdered(pages[..n - 1], split, a, b);
      assert all[a] == before[a] && all[b] == before[b];
    } else if a < |before| {
      PageTaggedShape(pages[..n - 1], split, a);
      assert all[a] == before[a];
      assert all[b] == last[b - |before|];
    } else {
      assert all[a] == last[a - |before|];
      assert all[b] == last[b - |before|];
    }
  }

  /** load_and_chunk_pdf's records: the base name of the file, a page from 1
      up, the a-th uuid drawn as id, and one of the page's split_text chunks. */
  lemma LoadedShape(path: string, pages: seq<string>, newId: nat -> string, a: nat)
    requires a < |LoadedRecords(path, pages, newId)|
    ensures var r := LoadedRecords(path, pages, newId)[a];
      r.filename == BaseName(path) && 1 <= r.pageNumber <= |pages| && r.chunkId == newId(a)
      && r.chunkText in DefaultSplit(pages[r.pageNumber - 1])
  {
    PageTaggedShape(pages, DefaultSplit, a);
  }

  /** Records are in page order. */
  lemma LoadedOrdered(path: string, pages: seq<string>, newId: nat -> string, a: nat, b: nat)
    requires a <= b < |LoadedRecords(path, pages, newId)|
    ensures LoadedRecords(path, pages, newId)[a].pageNumber <= LoadedRecords(path, pages, newId)[b].pageNumber
  {
    PageTaggedOrdered(pages, DefaultSplit, a, b);
  }

  /** Every page's chunks, one page after the other. */
  function AllPageChunks(pages: seq<string>, split: string -> seq<string>): seq<string>
    decreases |pages|
  {
    if pages == [] then [] else AllPageChunks(pages[..|pages| - 1], split) + split(pages[|pages| - 1])
  }

  function Texts(records: seq<Chunker.ChunkRecord>): seq<string> {
    seq(|records|, k requires 0 <= k < |records| => records[k].chunkText)
  }

  /** Dropping the page numbers leaves every page's chunks in turn. */
  lemma {:induction false} TaggedChunks(pages: seq<string>, split: string -> seq<string>)
    ensures |PageTagged(pages, split)| == |AllPageChunks(pages, split)|
    ensures forall k :: 0 <= k < |PageTagged(pages, split)| ==>
      PageTagged(pages, split)[k].1 == AllPageChunks(pages, split)[k]
    decreases |pages|
  {
    if pages != [] {
      var n := |pages|;
      TaggedChunks(pages[..n - 1], split);
      var before := PageTagged(pages[..n - 1], split);
      var last := Tag(n, split(pages[n - 1]));
      var chunks := AllPageChunks(pages, split);
      forall k | 0 <= k < |PageTagged(pages, split)|
        ensures PageTagged(pages, split)[k].1 == chunks[k]
      {
        if k < |before| {
          assert PageTagged(pages, split)[k] == before[k];
          assert chunks[k] == AllPageChunks(pages[..n - 1], split)[k];
        } else {
          assert PageTagged(pages, split)[k] == last[k - |before|];
          assert chunks[k] == split(pages[n - 1])[k - |before|];
        }
      }
    }
  }

  /** The chunk texts, in order, are exactly every page's split_text chunks
      in turn: no chunk is dropped, repeated or reordered. */
  lemma LoadedTexts(path: string, pages: seq<string>, newId: nat -> string)
    ensures Texts(LoadedRecords(path, pages, newId)) == AllPageChunks(pages, DefaultSplit)
  {
    TaggedChunks(pages, DefaultSplit);
  }

  /** A blank page adds no record (where the chunker's process_pdf adds one
      with empty text). */
  lemma LoadedBlankPage(path: string, pages: seq<string>, blank: string, newId: nat -> string)
    requires AllSpace(blank)
    ensures LoadedRecords(path, pages + [blank], newId) == LoadedRecords(path, pages, newId)
  {
    SplitBlank(blank, CHUNK_SIZE, CHUNK_OVERLAP);
    assert (pages + [blank])[..|pages|] == pages;
    assert Tag(|pages| + 1, []) == [];
    assert PageTagged(pages + [blank], DefaultSplit) == PageTagged(pages, DefaultSplit);
  }
}
