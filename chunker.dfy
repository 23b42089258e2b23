/** chunker.py: the sentence-packing chunker chunk_text and the metadata
    layer (process_pdf, process_docx, process_documents) that turns the
    texts extracted from PDF pages or DOCX paragraphs into chunk records.

    The packing loop is specified by Pack, which describes the loop's state
    after any number of sentences as sentence runs: the runs of the chunks
    closed so far, and the run currently held in current_chunk. ChunkText is the loop itself, proved to compute Chunks,
    and the lemmas below state what the packing guarantees. */
module Chunker {
  import opened Text

  /** chunk_text's defaults in chunker.py. */
  const DEFAULT_MAX_TOKENS: int := 400
  const DEFAULT_OVERLAP: int := 50

  /** The sentences chunk_text packs: the stripped text cut after '.', '!'
      or '?' followed by whitespace. */
  function Sentences(text: string): (ss: seq<string>)
    ensures |ss| >= 1
  {
    SplitSentences(Strip(text))
  }

  /** The consecutive sentences ss[lo..hi]. */
  datatype Span = Span(lo: nat, hi: nat)

  predicate SpansWithin(sp: seq<Span>, n: nat) {
    forall k | 0 <= k < |sp| :: sp[k].lo <= sp[k].hi <= n
  }

  /** Where current_chunk[-(overlap // 10):] begins, as a sentence index,
      when current_chunk holds ss[lo..hi]. Dafny's / is Euclidean, which
      for the positive divisor 10 is Python's floor division. */
  function CarryStart(lo: nat, hi: nat, overlap: int): (c: nat)
    requires lo <= hi
    ensures lo <= c <= hi
  {
    lo + PyIndex(hi - lo, -(overlap / 10))
  }

  /** What the carried slice keeps of the closed run ss[lo..hi]. */
  lemma CarryStartCases(lo: nat, hi: nat, overlap: int)
    requires lo <= hi
    // overlap // 10 == 0 makes the slice [-0:], which keeps every sentence
    ensures 0 <= overlap < 10 ==> CarryStart(lo, hi, overlap) == lo
    // otherwise the last overlap // 10 sentences are kept, or all of them
    ensures overlap >= 10 ==>
      CarryStart(lo, hi, overlap) == if hi - lo <= overlap / 10 then lo else hi - overlap / 10
    // a negative overlap makes the slice drop the first -(overlap // 10)
    ensures overlap < 0 ==>
      CarryStart(lo, hi, overlap) == if hi - lo <= -(overlap / 10) then hi else lo - overlap / 10
  {
  }

  /** The slice taken on overflow is the run of sentences from CarryStart. */
  lemma CarriedSentences(ss: seq<string>, lo: nat, hi: nat, overlap: int)
    requires lo <= hi <= |ss|
    ensures PySlice(ss[lo..hi], -(overlap / 10), hi - lo) == ss[CarryStart(lo, hi, overlap)..hi]
  {
  }

  /** The word count of every sentence: len(sentence.split()). */
  function Counts(ss: seq<string>): (lens: seq<nat>)
    ensures |lens| == |ss|
  {
    seq(|ss|, k requires 0 <= k < |ss| => WordCount(ss[k]))
  }

  function Sum(xs: seq<nat>): nat
    decreases |xs|
  {
    if xs == [] then 0 else xs[0] + Sum(xs[1..])
  }

  /** The word count of a run of sentences is the sum of their counts. */
  lemma SumOfCounts(ss: seq<string>, lo: nat, hi: nat)
    requires lo <= hi <= |ss|
    ensures SumWords(ss[lo..hi]) == Sum(Counts(ss)[lo..hi])
  {
    assert Counts(ss)[lo..hi] == Counts(ss[lo..hi]);
    SumWordsIsSum(ss[lo..hi]);
  }

  lemma {:induction false} SumWordsIsSum(parts: seq<string>)
    ensures SumWords(parts) == Sum(Counts(parts))
    decreases |parts|
  {
    if parts != [] {
      assert Counts(parts)[1..] == Counts(parts[1..]);
      SumWordsIsSum(parts[1..]);
    }
  }

  /** True when adding the sentence right after the run s to it would
      exceed maxTokens: the test that closes a chunk. */
  predicate Overflows(lens: seq<nat>, s: Span, maxTokens: int)
    requires s.lo <= s.hi < |lens|
  {
    Sum(lens[s.lo..s.hi]) + lens[s.hi] > maxTokens
  }

  /** chunk_text's loop state as sentence runs: the runs of the chunks
      closed so far, and the run held in current_chunk. */
  datatype PackState = PackState(closed: seq<Span>, open: Span)

  /** The state after the first i sentences, given every sentence's word
      count. */
  function Pack(lens: seq<nat>, i: nat, maxTokens: int, overlap: int): (st: PackState)
    requires i <= |lens|
    ensures st.open.lo <= st.open.hi == i
    ensures i > 0 ==> st.open.lo < i
    decreases i
  {
    if i == 0 then PackState([], Span(0, 0))
    else
      var p := Pack(lens, i - 1, maxTokens, overlap);
      if Overflows(lens, p.open, maxTokens) then
        PackState(p.closed + [p.open], Span(CarryStart(p.open.lo, p.open.hi, overlap), i))
      else
        PackState(p.closed, Span(p.open.lo, i))
  }

  /** Run k of a state: a closed run, or the open one after them. */
  function RunAt(st: PackState, k: nat): Span
    requires k <= |st.closed|
  {
    if k < |st.closed| then st.closed[k] else st.open
  }

  /** Every closed run lies before the open one. */
  lemma {:induction false} PackWithin(lens: seq<nat>, i: nat, maxTokens: int, overlap: int)
    requires i <= |lens|
    ensures SpansWithin(Pack(lens, i, maxTokens, overlap).closed, i)
    decreases i
  {
    if i > 0 {
      PackWithin(lens, i - 1, maxTokens, overlap);
    }
  }

  /** The sentence runs of chunk_text's result: the closed runs, then the
      open one, which the final flush keeps when it is non-empty. */
  function Spans(ss: seq<string>, maxTokens: int, overlap: int): (sp: seq<Span>)
    ensures SpansWithin(sp, |ss|)
    ensures |ss| >= 1 ==> |sp| >= 1
  {
    if ss == [] then []
    else
      var st := Pack(Counts(ss), |ss|, maxTokens, overlap);
      PackWithin(Counts(ss), |ss|, maxTokens, overlap);
      st.closed + [st.open]
  }

  /** Each run of sentences joined by single spaces. */
  function Render(ss: seq<string>, sp: seq<Span>): (cs: seq<string>)
    requires SpansWithin(sp, |ss|)
  {
    seq(|sp|, k requires 0 <= k < |sp| => Join(" ", ss[sp[k].lo..sp[k].hi]))
  }

  /** chunk_text(text, max_tokens, overlap). The result is never empty. */
  function Chunks(text: string, maxTokens: int, overlap: int): (cs: seq<string>)
    ensures |cs| >= 1
  {
    var ss := Sentences(text);
    Render(ss, Spans(ss, maxTokens, overlap))
  }

  lemma RenderAppend(ss: seq<string>, sp: seq<Span>, s: Span)
    requires SpansWithin(sp + [s], |ss|)
    ensures SpansWithin(sp, |ss|) && s.lo <= s.hi <= |ss|
    ensures Render(ss, sp + [s]) == Render(ss, sp) + [Join(" ", ss[s.lo..s.hi])]
  {
    assert (sp + [s])[|sp|] == s;
    assert forall k | 0 <= k < |sp| :: (sp + [s])[k] == sp[k];
  }

  /** chunk_text's loop state after i iterations agrees with Pack: chunks
      holds the closed runs, current_chunk the open one and current_len its
      word count. */
  predicate LoopState(ss: seq<string>, i: nat, maxTokens: int, overlap: int,
                      chunks: seq<string>, current: seq<string>, currentLen: int)
    requires i <= |ss|
  {
    var st := Pack(Counts(ss), i, maxTokens, overlap);
    PackWithin(Counts(ss), i, maxTokens, overlap);
    chunks == Render(ss, st.closed)
    && current == ss[st.open.lo..i]
    && currentLen == SumWords(current)
  }

  /** An iteration that closes the current chunk: it is emitted, and the new
      current_chunk is the carried slice plus the sentence. */
  lemma CloseStep(ss: seq<string>, i: nat, maxTokens: int, overlap: int,
                  chunks: seq<string>, current: seq<string>, currentLen: int)
    requires i < |ss|
    requires LoopState(ss, i, maxTokens, overlap, chunks, current, currentLen)
    requires currentLen + WordCount(ss[i]) > maxTokens
    ensures var carried := PySlice(current, -(overlap / 10), |current|);
      LoopState(ss, i + 1, maxTokens, overlap, chunks + [Join(" ", current)],
                carried + [ss[i]], SumWords(carried) + WordCount(ss[i]))
  {
    var st := Pack(Counts(ss), i, maxTokens, overlap);
    var cur := st.open;
    SumOfCounts(ss, cur.lo, i);
    assert Overflows(Counts(ss), cur, maxTokens);
    var c := CarryStart(cur.lo, i, overlap);
    PackWithin(Counts(ss), i + 1, maxTokens, overlap);
    RenderAppend(ss, st.closed, cur);
    CarriedSentences(ss, cur.lo, i, overlap);
    ExtendRun(ss, c, i);
    SumWordsAppend(PySlice(current, -(overlap / 10), |current|), ss[i]);
  }

  /** An iteration that appends to the current chunk: no chunk is closed and
      the open run grows by the sentence. */
  lemma ExtendStep(ss: seq<string>, i: nat, maxTokens: int, overlap: int,
                   chunks: seq<string>, current: seq<string>, currentLen: int)
    requires i < |ss|
    requires LoopState(ss, i, maxTokens, overlap, chunks, current, currentLen)
    requires currentLen + WordCount(ss[i]) <= maxTokens
    ensures LoopState(ss, i + 1, maxTokens, overlap, chunks, current + [ss[i]],
                      currentLen + WordCount(ss[i]))
  {
    var st := Pack(Counts(ss), i, maxTokens, overlap);
    SumOfCounts(ss, st.open.lo, i);
    assert !Overflows(Counts(ss), st.open, maxTokens);
    PackWithin(Counts(ss), i + 1, maxTokens, overlap);
    ExtendRun(ss, st.open.lo, i);
    SumWordsAppend(current, ss[i]);
  }

  /** After the last sentence, the final flush yields Chunks. */
  lemma FinishStep(ss: seq<string>, maxTokens: int, overlap: int,
                   chunks: seq<string>, current: seq<string>, currentLen: int)
    requires |ss| >= 1
    requires LoopState(ss, |ss|, maxTokens, overlap, chunks, current, currentLen)
    ensures current != []
    ensures chunks + [Join(" ", current)] == Render(ss, Spans(ss, maxTokens, overlap))
  {
    var st := Pack(Counts(ss), |ss|, maxTokens, overlap);
    PackWithin(Counts(ss), |ss|, maxTokens, overlap);
    RenderAppend(ss, st.closed, st.open);
  }

  lemma ExtendRun(ss: seq<string>, lo: nat, i: nat)
    requires lo <= i < |ss|
    ensures ss[lo..i] + [ss[i]] == ss[lo..i + 1]
  {
  }

  /** chunk_text: the packing loop over the sentences. */
  method ChunkText(text: string, maxTokens: int := DEFAULT_MAX_TOKENS, overlap: int := DEFAULT_OVERLAP)
    returns (chunks: seq<string>)
    ensures chunks == Chunks(text, maxTokens, overlap)
  {
    chunks := [];
    var sentences := Sentences(text);
    var currentChunk: seq<string> := [];
    var currentLen := 0;
    for i := 0 to |sentences|
      invariant LoopState(sentences, i, maxTokens, overlap, chunks, currentChunk, currentLen)
    {
      var sentence := sentences[i];
      var sentenceLen := WordCount(sentence);
      if currentLen + sentenceLen > maxTokens {
        CloseStep(sentences, i, maxTokens, overlap, chunks, currentChunk, currentLen);
        chunks := chunks + [Join(" ", currentChunk)];
        currentChunk := PySlice(currentChunk, -(overlap / 10), |currentChunk|);
        currentLen := SumWords(currentChunk);
      } else {
        ExtendStep(sentences, i, maxTokens, overlap, chunks, currentChunk, currentLen);
      }
      currentChunk := currentChunk + [sentence];
      currentLen := currentLen + sentenceLen;
    }
    FinishStep(sentences, maxTokens, overlap, chunks, currentChunk, currentLen);
    if currentChunk != [] {
      chunks := chunks + [Join(" ", currentChunk)];
    }
  }

  // ------------------------------------------------------ packing lemmas

  /** b is a later state than a: a's closed runs are still closed, and a's
      open run has been closed or extended but keeps its start. */
  predicate Extends(a: PackState, b: PackState) {
    |a.closed| <= |b.closed|
    && (forall m | 0 <= m < |a.closed| :: b.closed[m] == a.closed[m])
    && RunAt(b, |a.closed|).lo == a.open.lo
    && RunAt(b, |a.closed|).hi >= a.open.hi
  }

  /** One more sentence closes at most one run. */
  lemma PackStep(lens: seq<nat>, i: nat, maxTokens: int, overlap: int)
    requires i < |lens|
    ensures var a := Pack(lens, i, maxTokens, overlap);
      var b := Pack(lens, i + 1, maxTokens, overlap);
      |b.closed| <= |a.closed| + 1 && Extends(a, b)
  {
  }

  /** Runs closed after i sentences stay closed ever after. */
  lemma {:induction false} PackGrows(lens: seq<nat>, i: nat, j: nat, maxTokens: int, overlap: int)
    requires i <= j <= |lens|
    ensures Extends(Pack(lens, i, maxTokens, overlap), Pack(lens, j, maxTokens, overlap))
    decreases j - i
  {
    if i < j {
      PackStep(lens, i, maxTokens, overlap);
      PackGrows(lens, i + 1, j, maxTokens, overlap);
      var a := Pack(lens, i, maxTokens, overlap);
      var m := Pack(lens, i + 1, maxTokens, overlap);
      var b := Pack(lens, j, maxTokens, overlap);
      if |m.closed| > |a.closed| {
        assert RunAt(b, |a.closed|) == b.closed[|a.closed|] == m.closed[|a.closed|];
      }
    }
  }

  /** The close rule: a run was closed because the sentence after it would
      have pushed it over maxTokens. */
  lemma {:induction false} ClosedRun(lens: seq<nat>, n: nat, maxTokens: int, overlap: int, k: nat)
    requires n <= |lens|
    requires k < |Pack(lens, n, maxTokens, overlap).closed|
    ensures var s := Pack(lens, n, maxTokens, overlap).closed[k];
      s.lo <= s.hi < n && Overflows(lens, s, maxTokens)
    decreases n
  {
    var st := Pack(lens, n, maxTokens, overlap);
    var p := Pack(lens, n - 1, maxTokens, overlap);
    PackStep(lens, n - 1, maxTokens, overlap);
    if k < |p.closed| {
      ClosedRun(lens, n - 1, maxTokens, overlap, k);
    } else {
      assert st.closed[k] == p.open;
    }
  }

  /** The sentence that closed a run goes into the next run, which starts
      with the sentences carried over from the closed one. */
  lemma {:induction false} CarriedRun(lens: seq<nat>, n: nat, maxTokens: int, overlap: int, k: nat)
    requires n <= |lens|
    requires k < |Pack(lens, n, maxTokens, overlap).closed|
    ensures var st := Pack(lens, n, maxTokens, overlap);
      var s := st.closed[k];
      s.lo <= s.hi
      && RunAt(st, k + 1).lo == CarryStart(s.lo, s.hi, overlap)
      && s.hi < RunAt(st, k + 1).hi
    decreases n
  {
    var st := Pack(lens, n, maxTokens, overlap);
    var p := Pack(lens, n - 1, maxTokens, overlap);
    PackStep(lens, n - 1, maxTokens, overlap);
    if k < |p.closed| {
      CarriedRun(lens, n - 1, maxTokens, overlap, k);
      if k + 1 < |p.closed| {
        assert RunAt(st, k + 1) == RunAt(p, k + 1);
      }
    } else {
      assert st.closed[k] == p.open;
    }
  }

  /** Where run k began taking sentences under the size check: run 0 from
      the first sentence, any later run right after the sentence that
      opened it. */
  function Opened(st: PackState, k: nat): nat
    requires k <= |st.closed|
  {
    if k == 0 then 0 else st.closed[k - 1].hi + 1
  }

  /** The fit rule: every sentence a run took after it was opened fitted,
      i.e. adding it did not push the run over maxTokens. */
  lemma {:induction false} FittedSentence(lens: seq<nat>, n: nat, maxTokens: int, overlap: int, k: nat, j: nat)
    requires n <= |lens|
    requires k <= |Pack(lens, n, maxTokens, overlap).closed|
    requires var st := Pack(lens, n, maxTokens, overlap);
      Opened(st, k) <= j < RunAt(st, k).hi && j < n
    ensures var st := Pack(lens, n, maxTokens, overlap);
      RunAt(st, k).lo <= j && !Overflows(lens, Span(RunAt(st, k).lo, j), maxTokens)
    decreases n
  {
    var st := Pack(lens, n, maxTokens, overlap);
    var p := Pack(lens, n - 1, maxTokens, overlap);
    PackStep(lens, n - 1, maxTokens, overlap);
    if k > 0 {
      CarriedRun(lens, n, maxTokens, overlap, k - 1);
    }
    if k < |p.closed| || (k == |p.closed| && j < n - 1) {
      PackWithin(lens, n - 1, maxTokens, overlap);
      FittedSentence(lens, n - 1, maxTokens, overlap, k, j);
    }
  }

  /** Sentence j lies in run k of st. */
  predicate InRun(st: PackState, k: nat, j: nat)
    requires k <= |st.closed|
  {
    RunAt(st, k).lo <= j < RunAt(st, k).hi
  }

  /** Every sentence belongs to some run. */
  lemma {:induction false} Covered(lens: seq<nat>, n: nat, maxTokens: int, overlap: int, j: nat)
    requires j < n <= |lens|
    ensures exists k ::
      0 <= k <= |Pack(lens, n, maxTokens, overlap).closed| && InRun(Pack(lens, n, maxTokens, overlap), k, j)
    decreases n
  {
    var st := Pack(lens, n, maxTokens, overlap);
    if j < n - 1 {
      Covered(lens, n - 1, maxTokens, overlap, j);
      var p := Pack(lens, n - 1, maxTokens, overlap);
      var k :| 0 <= k <= |p.closed| && InRun(p, k, j);
      PackStep(lens, n - 1, maxTokens, overlap);
      assert InRun(st, k, j);
    } else {
      assert InRun(st, |st.closed|, j);
    }
  }

  /** With overlap below 10 the slice [-0:] keeps everything, so every run
      starts at the first sentence. */
  lemma {:induction false} SmallOverlapKeepsAll(lens: seq<nat>, n: nat, maxTokens: int, overlap: int, k: nat)
    requires 0 <= overlap < 10
    requires n <= |lens| && k <= |Pack(lens, n, maxTokens, overlap).closed|
    ensures RunAt(Pack(lens, n, maxTokens, overlap), k).lo == 0
    decreases n
  {
    if n > 0 {
      var st := Pack(lens, n, maxTokens, overlap);
      var p := Pack(lens, n - 1, maxTokens, overlap);
      SmallOverlapKeepsAll(lens, n - 1, maxTokens, overlap, |p.closed|);
      CarryStartCases(p.open.lo, p.open.hi, overlap);
      if k < |p.closed| {
        SmallOverlapKeepsAll(lens, n - 1, maxTokens, overlap, k);
        PackStep(lens, n - 1, maxTokens, overlap);
      }
    }
  }

  // ---------------------------------------------- the chunks of a text

  /** The runs of chunk_text's result are the final state's runs. */
  lemma SpansRunAt(ss: seq<string>, maxTokens: int, overlap: int, k: nat)
    requires ss != []
    requires k < |Spans(ss, maxTokens, overlap)|
    ensures var st := Pack(Counts(ss), |ss|, maxTokens, overlap);
      k <= |st.closed| && Spans(ss, maxTokens, overlap)[k] == RunAt(st, k)
  {
  }

  /** Whitespace-only text gives the single chunk "" (two of them when
      maxTokens is negative, since even the empty sentence overflows). */
  lemma BlankText(text: string, maxTokens: int, overlap: int)
    requires AllSpace(text)
    ensures Chunks(text, maxTokens, overlap) == if maxTokens >= 0 then [""] else ["", ""]
  {
    var ss := Sentences(text);
    assert ss == [""];
    assert WordCount("") == 0;
    var lens := Counts(ss);
    assert lens == [0];
    var st := Pack(lens, 1, maxTokens, overlap);
    assert Pack(lens, 0, maxTokens, overlap) == PackState([], Span(0, 0));
    assert Sum(lens[0..0]) == 0;
    if maxTokens >= 0 {
      assert st == PackState([], Span(0, 1));
    } else {
      assert st == PackState([Span(0, 0)], Span(0, 1));
    }
  }

  /** chunk_text's chunks are the joined runs of sentences, and the close
      rule read on them: chunk k was closed because adding the sentence
      after it would have exceeded maxTokens, and the next chunk holds that
      sentence, after the sentences carried from chunk k. */
  lemma ChunkClosed(text: string, maxTokens: int, overlap: int, k: nat)
    requires k + 1 < |Chunks(text, maxTokens, overlap)|
    ensures var ss := Sentences(text);
      var sp := Spans(ss, maxTokens, overlap);
      var s := sp[k];
      s.lo <= s.hi < |ss|
      && Chunks(text, maxTokens, overlap)[k] == Join(" ", ss[s.lo..s.hi])
      && SumWords(ss[s.lo..s.hi]) + WordCount(ss[s.hi]) > maxTokens
      && sp[k + 1].lo == CarryStart(s.lo, s.hi, overlap)
      && sp[k + 1].lo <= s.hi < sp[k + 1].hi
  {
    var ss := Sentences(text);
    var sp := Spans(ss, maxTokens, overlap);
    var st := Pack(Counts(ss), |ss|, maxTokens, overlap);
    SpansRunAt(ss, maxTokens, overlap, k);
    SpansRunAt(ss, maxTokens, overlap, k + 1);
    ClosedRun(Counts(ss), |ss|, maxTokens, overlap, k);
    CarriedRun(Counts(ss), |ss|, maxTokens, overlap, k);
    SumOfCounts(ss, sp[k].lo, sp[k].hi);
  }

  /** The fit rule read on the chunks: every sentence chunk k took after
      the one that opened it fitted within maxTokens. */
  lemma ChunkFitted(text: string, maxTokens: int, overlap: int, k: nat, j: nat)
    requires k < |Chunks(text, maxTokens, overlap)|
    requires var sp := Spans(Sentences(text), maxTokens, overlap);
      (if k == 0 then 0 else sp[k - 1].hi + 1) <= j < sp[k].hi
    ensures var ss := Sentences(text);
      var sp := Spans(ss, maxTokens, overlap);
      sp[k].lo <= j < |ss|
      && SumWords(ss[sp[k].lo..j]) + WordCount(ss[j]) <= maxTokens
  {
    var ss := Sentences(text);
    var sp := Spans(ss, maxTokens, overlap);
    var st := Pack(Counts(ss), |ss|, maxTokens, overlap);
    SpansRunAt(ss, maxTokens, overlap, k);
    if k > 0 {
      SpansRunAt(ss, maxTokens, overlap, k - 1);
    }
    FittedSentence(Counts(ss), |ss|, maxTokens, overlap, k, j);
    SumOfCounts(ss, sp[k].lo, j);
  }

  lemma {:induction false} SumAppend(xs: seq<nat>, x: nat)
    ensures Sum(xs + [x]) == Sum(xs) + x
    decreases |xs|
  {
    if xs != [] {
      assert (xs + [x])[1..] == xs[1..] + [x];
      SumAppend(xs[1..], x);
    }
  }

  /** A run whose words exceed maxTokens took no sentence under the size
      check: it is only what it was opened with. */
  lemma RunOverLimit(lens: seq<nat>, n: nat, maxTokens: int, overlap: int, k: nat)
    requires n <= |lens|
    requires k <= |Pack(lens, n, maxTokens, overlap).closed|
    requires var s := RunAt(Pack(lens, n, maxTokens, overlap), k);
      s.lo <= s.hi <= n && Sum(lens[s.lo..s.hi]) > maxTokens
    ensures var st := Pack(lens, n, maxTokens, overlap);
      RunAt(st, k).hi <= Opened(st, k)
  {
    var st := Pack(lens, n, maxTokens, overlap);
    var s := RunAt(st, k);
    if Opened(st, k) < s.hi {
      var j := s.hi - 1;
      FittedSentence(lens, n, maxTokens, overlap, k, j);
      assert lens[s.lo..j] + [lens[j]] == lens[s.lo..s.hi];
      SumAppend(lens[s.lo..j], lens[j]);
      assert false;
    }
  }

  /** A chunk exceeds maxTokens only when it holds nothing but the
      sentences carried into it and the sentence that opened it (or, for
      the first chunk, nothing at all). */
  lemma ChunkOverLimit(text: string, maxTokens: int, overlap: int, k: nat)
    requires k < |Chunks(text, maxTokens, overlap)|
    requires WordCount(Chunks(text, maxTokens, overlap)[k]) > maxTokens
    ensures var sp := Spans(Sentences(text), maxTokens, overlap);
      sp[k].hi <= if k == 0 then 0 else sp[k - 1].hi + 1
  {
    var ss := Sentences(text);
    var sp := Spans(ss, maxTokens, overlap);
    SpansRunAt(ss, maxTokens, overlap, k);
    if k > 0 {
      SpansRunAt(ss, maxTokens, overlap, k - 1);
    }
    WordCountOfJoin(ss[sp[k].lo..sp[k].hi]);
    SumOfCounts(ss, sp[k].lo, sp[k].hi);
    RunOverLimit(Counts(ss), |ss|, maxTokens, overlap, k);
  }

  /** The two sentences of "a. b.". */
  lemma ExampleSentences()
    ensures Sentences("a. b.") == ["a.", "b."]
  {
    var text := "a. b.";
    StripUnchanged(text);
    assert NextBreak(text, 1) == 2 by {
      assert !BreakAt(text, 1) && BreakAt(text, 2);
    }
    assert SkipSpaces(text, 2) == 3;
    assert text[..2] == "a." && text[3..] == "b.";
    assert NextBreak("b.", 1) == 2;
    assert SplitSentences("b.") == ["b."];
    assert SplitSentences(text) == [text[..2]] + SplitSentences(text[3..]);
  }

  /** The packing of two one-word sentences with max_tokens 1 and overlap
      50: the second sentence overflows and the first is carried. */
  lemma ExamplePack(lens: seq<nat>)
    requires lens == [1, 1]
    ensures Pack(lens, 2, 1, 50) == PackState([Span(0, 1)], Span(0, 2))
  {
    assert Pack(lens, 0, 1, 50) == PackState([], Span(0, 0));
    assert lens[0..0] == [];
    assert Pack(lens, 1, 1, 50) == PackState([], Span(0, 1));
    assert lens[0..1] == [1];
  }

  /** The chunk runs of those two sentences. */
  lemma ExampleSpans(ss: seq<string>)
    requires ss == ["a.", "b."]
    ensures Spans(ss, 1, 50) == [Span(0, 1), Span(0, 2)]
  {
    WordsOfWord("a.");
    WordsOfWord("b.");
    assert Counts(ss) == [1, 1];
    ExamplePack(Counts(ss));
  }

  /** The text of those runs. */
  lemma ExampleRender(ss: seq<string>)
    requires ss == ["a.", "b."]
    ensures Render(ss, [Span(0, 1), Span(0, 2)]) == ["a.", "a. b."]
    ensures WordCount("a. b.") == 2
  {
    assert ss[0..1] == ["a."] && ss[0..2] == ss;
    assert Join(" ", ["a."]) == "a.";
    assert Join(" ", ss) == "a. b.";
    WordsOfWord("a.");
    WordsOfWord("b.");
    WordCountOfJoin(ss);
  }

  /** An over-limit chunk does occur: with max_tokens 1, "a. b." gives the
      chunks "a." and "a. b.", and the second holds two words, the carried
      "a." and the "b." that opened it. */
  lemma OverLimitChunkExample()
    ensures Chunks("a. b.", 1, 50) == ["a.", "a. b."]
    ensures WordCount(Chunks("a. b.", 1, 50)[1]) == 2
  {
    ExampleSentences();
    ExampleSpans(Sentences("a. b."));
    ExampleRender(Sentences("a. b."));
  }

  /** Sentence j of the text lies in the run of chunk k. */
  predicate InChunk(text: string, maxTokens: int, overlap: int, k: nat, j: nat)
    requires k < |Chunks(text, maxTokens, overlap)|
  {
    var sp := Spans(Sentences(text), maxTokens, overlap);
    sp[k].lo <= j < sp[k].hi
  }

  /** No sentence is lost: each one lies in the run of some chunk. */
  lemma SentenceInChunk(text: string, maxTokens: int, overlap: int, j: nat)
    requires j < |Sentences(text)|
    ensures exists k ::
      0 <= k < |Chunks(text, maxTokens, overlap)| && InChunk(text, maxTokens, overlap, k, j)
  {
    var ss := Sentences(text);
    var st := Pack(Counts(ss), |ss|, maxTokens, overlap);
    Covered(Counts(ss), |ss|, maxTokens, overlap, j);
    var k :| 0 <= k <= |st.closed| && InRun(st, k, j);
    SpansRunAt(ss, maxTokens, overlap, k);
    assert InChunk(text, maxTokens, overlap, k, j);
  }

  /** A first sentence longer than maxTokens closes the empty first chunk
      at once, so chunk_text returns "" first; otherwise the first chunk
      begins with the first sentence. */
  lemma FirstChunk(text: string, maxTokens: int, overlap: int)
    ensures var ss := Sentences(text);
      var cs := Chunks(text, maxTokens, overlap);
      if WordCount(ss[0]) > maxTokens then |cs| >= 2 && cs[0] == ""
      else |ss[0]| <= |cs[0]| && cs[0][..|ss[0]|] == ss[0]
  {
    var ss := Sentences(text);
    var lens := Counts(ss);
    var st := Pack(lens, |ss|, maxTokens, overlap);
    var p1 := Pack(lens, 1, maxTokens, overlap);
    assert Pack(lens, 0, maxTokens, overlap) == PackState([], Span(0, 0));
    assert Sum(lens[0..0]) == 0;
    PackGrows(lens, 1, |ss|, maxTokens, overlap);
    SpansRunAt(ss, maxTokens, overlap, 0);
    if WordCount(ss[0]) > maxTokens {
      assert p1.closed == [Span(0, 0)];
    } else {
      assert p1 == PackState([], Span(0, 1));
      JoinHead(ss[RunAt(st, 0).lo..RunAt(st, 0).hi]);
    }
  }

  /** sep.join(parts) begins with parts[0]. */
  lemma JoinHead(parts: seq<string>)
    requires parts != []
    ensures |parts[0]| <= |Join(" ", parts)| && Join(" ", parts)[..|parts[0]|] == parts[0]
  {
  }

  // ------------------------------------------------------- chunk records

  /** The metadata dict built for every chunk. */
  datatype ChunkRecord = ChunkRecord(filename: string, pageNumber: nat, chunkId: string, chunkText: string)

  /** f"{page}_{i}": the id of the i-th chunk of a PDF page. */
  function PdfChunkId(page: nat, i: nat): string {
    NatToString(page) + "_" + NatToString(i)
  }

  /** f"docx_0_{i}": the id of the i-th chunk of a DOCX file. */
  function DocxChunkId(i: nat): string {
    "docx_0_" + NatToString(i)
  }

  /** A PDF chunk id splits at '_' into the page and the chunk index. */
  lemma PdfChunkIdParts(page: nat, i: nat)
    ensures SplitOn(PdfChunkId(page, i), '_') == [NatToString(page), NatToString(i)]
  {
    var a, b := NatToString(page), NatToString(i);
    assert '_' !in a && '_' !in b by {
      assert !IsDigit('_');
    }
    assert Join(['_'], [a, b]) == PdfChunkId(page, i) by {
      assert [a, b][1..] == [b];
    }
    SplitJoinRoundTrip([a, b], '_');
  }

  /** Different pages or indexes give different PDF chunk ids. */
  lemma PdfChunkIdInjective(p: nat, i: nat, q: nat, j: nat)
    requires PdfChunkId(p, i) == PdfChunkId(q, j)
    ensures p == q && i == j
  {
    PdfChunkIdParts(p, i);
    PdfChunkIdParts(q, j);
    NatToStringInjective(p, q);
    NatToStringInjective(i, j);
  }

  /** Different indexes give different DOCX chunk ids. */
  lemma DocxChunkIdInjective(i: nat, j: nat)
    requires DocxChunkId(i) == DocxChunkId(j)
    ensures i == j
  {
    assert NatToString(i) == DocxChunkId(i)[7..];
    assert NatToString(j) == DocxChunkId(j)[7..];
    NatToStringInjective(i, j);
  }

  /** The records of one PDF page, page numbered from 1, chunk index from 0. */
  function PageRecords(name: string, page: nat, chunks: seq<string>): (rs: seq<ChunkRecord>)
  {
    seq(|chunks|, i requires 0 <= i < |chunks| => ChunkRecord(name, page, PdfChunkId(page, i), chunks[i]))
  }

  /** The records of a PDF whose pages were chunked into pageChunks. */
  function RecordsOfPages(name: string, pageChunks: seq<seq<string>>): seq<ChunkRecord>
    decreases |pageChunks|
  {
    if pageChunks == [] then []
    else
      var n := |pageChunks|;
      RecordsOfPages(name, pageChunks[..n - 1]) + PageRecords(name, n, pageChunks[n - 1])
  }

  /** chunk_text applied to every page. */
  function PageChunks(pages: seq<string>, maxTokens: int, overlap: int): seq<seq<string>> {
    seq(|pages|, p requires 0 <= p < |pages| => Chunks(pages[p], maxTokens, overlap))
  }

  /** process_pdf(path) when the PDF's pages hold the texts pages. */
  function PdfRecords(path: string, pages: seq<string>, maxTokens: int, overlap: int): seq<ChunkRecord>
  {
    RecordsOfPages(BaseName(path), PageChunks(pages, maxTokens, overlap))
  }

  lemma PageRecordsStep(name: string, page: nat, chunks: seq<string>, i: nat)
    requires i < |chunks|
    ensures PageRecords(name, page, chunks[..i + 1])
      == PageRecords(name, page, chunks[..i]) + [ChunkRecord(name, page, PdfChunkId(page, i), chunks[i])]
  {
  }

  lemma RecordsOfPagesStep(name: string, done: seq<seq<string>>, chunks: seq<string>)
    ensures RecordsOfPages(name, done + [chunks])
      == RecordsOfPages(name, done) + PageRecords(name, |done| + 1, chunks)
  {
    assert (done + [chunks])[..|done|] == done;
  }

  lemma PageChunksStep(pages: seq<string>, n: nat, maxTokens: int, overlap: int)
    requires n < |pages|
    ensures PageChunks(pages[..n + 1], maxTokens, overlap)
      == PageChunks(pages[..n], maxTokens, overlap) + [Chunks(pages[n], maxTokens, overlap)]
  {
    var prefix := PageChunks(pages[..n], maxTokens, overlap);
    var next := PageChunks(pages[..n + 1], maxTokens, overlap);
    var last := Chunks(pages[n], maxTokens, overlap);
    assert |next| == |prefix| + 1;
    forall p | 0 <= p < |next|
      ensures next[p] == (prefix + [last])[p]
    {
      if p < n {
        assert pages[..n + 1][p] == pages[..n][p];
        assert next[p] == prefix[p];
      } else {
        assert pages[..n + 1][p] == pages[n];
        assert next[p] == last;
      }
    }
  }

  /** The inner loop of process_pdf: appends the records of one page's
      chunks, numbered from 0, to allChunks. */
  method AppendPageRecords(allChunks: seq<ChunkRecord>, filename: string, page: nat, chunks: seq<string>)
    returns (result: seq<ChunkRecord>)
    ensures result == allChunks + PageRecords(filename, page, chunks)
  {
    result := allChunks;
    for i := 0 to |chunks|
      invariant result == allChunks + PageRecords(filename, page, chunks[..i])
    {
      PageRecordsStep(filename, page, chunks, i);
      result := result + [ChunkRecord(filename, page, PdfChunkId(page, i), chunks[i])];
    }
    assert chunks[..|chunks|] == chunks;
  }

  /** process_pdf: for every page, its chunks as records. The page texts
      are what the PDF library extracts from the file at path. */
  method ProcessPdf(path: string, pages: seq<string>,
                    maxTokens: int := DEFAULT_MAX_TOKENS, overlap: int := DEFAULT_OVERLAP)
    returns (allChunks: seq<ChunkRecord>)
    ensures allChunks == PdfRecords(path, pages, maxTokens, overlap)
  {
    allChunks := [];
    var filename := BaseName(path);
    ghost var done: seq<seq<string>> := [];
    for pageNum := 0 to |pages|
      invariant done == PageChunks(pages[..pageNum], maxTokens, overlap)
      invariant allChunks == RecordsOfPages(filename, done)
    {
      var chunks := ChunkText(pages[pageNum], maxTokens, overlap);
      PageChunksStep(pages, pageNum, maxTokens, overlap);
      RecordsOfPagesStep(filename, done, chunks);
      allChunks := AppendPageRecords(allChunks, filename, pageNum + 1, chunks);
      done := done + [chunks];
    }
    assert pages[..|pages|] == pages;
  }

  /** Every record of a PDF names the file, a page from 1 to the page
      count, and the i-th chunk of that page under the id "{page}_{i}". */
  lemma {:induction false} RecordsOfPagesShape(name: string, pageChunks: seq<seq<string>>, a: nat) returns (i: nat)
    requires a < |RecordsOfPages(name, pageChunks)|
    ensures var r := RecordsOfPages(name, pageChunks)[a];
      r.filename == name && 1 <= r.pageNumber <= |pageChunks|
      && i < |pageChunks[r.pageNumber - 1]|
      && r.chunkId == PdfChunkId(r.pageNumber, i) && r.chunkText == pageChunks[r.pageNumber - 1][i]
    decreases |pageChunks|
  {
    var n := |pageChunks|;
    var prefix := pageChunks[..n - 1];
    var before := RecordsOfPages(name, prefix);
    var r := RecordsOfPages(name, pageChunks)[a];
    if a < |before| {
      i := RecordsOfPagesShape(name, prefix, a);
      assert r == before[a];
      assert prefix[r.pageNumber - 1] == pageChunks[r.pageNumber - 1];
    } else {
      i := a - |before|;
      assert r == PageRecords(name, n, pageChunks[n - 1])[i];
    }
  }

  /** No two records of a PDF share a chunk id. */
  lemma {:induction false} RecordsOfPagesIdsDistinct(name: string, pageChunks: seq<seq<string>>, a: nat, b: nat)
    requires a < b < |RecordsOfPages(name, pageChunks)|
    ensures RecordsOfPages(name, pageChunks)[a].chunkId != RecordsOfPages(name, pageChunks)[b].chunkId
    decreases |pageChunks|
  {
    var n := |pageChunks|;
    var prefix := pageChunks[..n - 1];
    var before := RecordsOfPages(name, prefix);
    var recs := RecordsOfPages(name, pageChunks);
    var page := PageRecords(name, n, pageChunks[n - 1]);
    if b < |before| {
      RecordsOfPagesIdsDistinct(name, prefix, a, b);
      assert recs[a] == before[a] && recs[b] == before[b];
    } else if a >= |before| {
      assert recs[a] == page[a - |before|] && recs[b] == page[b - |before|];
      if recs[a].chunkId == recs[b].chunkId {
        PdfChunkIdInjective(n, a - |before|, n, b - |before|);
      }
    } else {
      var i := RecordsOfPagesShape(name, prefix, a);
      assert recs[a] == before[a] && recs[b] == page[b - |before|];
      if recs[a].chunkId == recs[b].chunkId {
        PdfChunkIdInjective(recs[a].pageNumber, i, n, b - |before|);
      }
    }
  }

  /** process_pdf's records: the base name of the path, pages numbered from
      1, and for each page its i-th chunk under the id "{page}_{i}", with i
      counted from 0 again on every page. */
  lemma PdfRecordShape(path: string, pages: seq<string>, maxTokens: int, overlap: int, a: nat) returns (i: nat)
    requires a < |PdfRecords(path, pages, maxTokens, overlap)|
    ensures var r := PdfRecords(path, pages, maxTokens, overlap)[a];
      r.filename == BaseName(path) && 1 <= r.pageNumber <= |pages|
      && i < |Chunks(pages[r.pageNumber - 1], maxTokens, overlap)|
      && r.chunkId == PdfChunkId(r.pageNumber, i)
      && r.chunkText == Chunks(pages[r.pageNumber - 1], maxTokens, overlap)[i]
  {
    var pcs := PageChunks(pages, maxTokens, overlap);
    i := RecordsOfPagesShape(BaseName(path), pcs, a);
  }

  /** Chunk ids are unique within a PDF. */
  lemma PdfIdsDistinct(path: string, pages: seq<string>, maxTokens: int, overlap: int, a: nat, b: nat)
    requires a < b < |PdfRecords(path, pages, maxTokens, overlap)|
    ensures PdfRecords(path, pages, maxTokens, overlap)[a].chunkId
      != PdfRecords(path, pages, maxTokens, overlap)[b].chunkId
  {
    RecordsOfPagesIdsDistinct(BaseName(path), PageChunks(pages, maxTokens, overlap), a, b);
  }

  lemma {:induction false} RecordsOfPagesCount(name: string, pageChunks: seq<seq<string>>)
    requires forall p :: 0 <= p < |pageChunks| ==> pageChunks[p] != []
    ensures |RecordsOfPages(name, pageChunks)| >= |pageChunks|
    decreases |pageChunks|
  {
    if pageChunks != [] {
      var n := |pageChunks|;
      RecordsOfPagesCount(name, pageChunks[..n - 1]);
    }
  }

  /** Every page yields at least one record, since chunk_text never
      returns an empty list. */
  lemma PdfRecordsPerPage(path: string, pages: seq<string>, maxTokens: int, overlap: int)
    ensures |PdfRecords(path, pages, maxTokens, overlap)| >= |pages|
  {
    var pcs := PageChunks(pages, maxTokens, overlap);
    assert forall p | 0 <= p < |pcs| :: pcs[p] == Chunks(pages[p], maxTokens, overlap) != [];
    RecordsOfPagesCount(BaseName(path), pcs);
  }

  // ---------------------------------------------------------------- DOCX

  /** The paragraph texts process_docx keeps: those whose strip() is not
      empty, in document order. */
  function NonBlank(paragraphs: seq<string>): (kept: seq<string>)
    ensures |kept| <= |paragraphs|
    decreases |paragraphs|
  {
    if paragraphs == [] then []
    else
      var n := |paragraphs|;
      var rest := NonBlank(paragraphs[..n - 1]);
      if Strip(paragraphs[n - 1]) != "" then rest + [paragraphs[n - 1]] else rest
  }

  /** A paragraph is kept exactly when it holds a non-whitespace character. */
  lemma {:induction false} NonBlankKeeps(paragraphs: seq<string>)
    ensures forall p :: p in NonBlank(paragraphs) <==> p in paragraphs && !AllSpace(p)
    decreases |paragraphs|
  {
    if paragraphs != [] {
      var n := |paragraphs|;
      NonBlankKeeps(paragraphs[..n - 1]);
      assert paragraphs == paragraphs[..n - 1] + [paragraphs[n - 1]];
    }
  }

  /** Only blank paragraphs leave nothing to keep. */
  lemma {:induction false} NonBlankOfBlank(paragraphs: seq<string>)
    requires forall p :: p in paragraphs ==> AllSpace(p)
    ensures NonBlank(paragraphs) == []
    decreases |paragraphs|
  {
    if paragraphs != [] {
      var n := |paragraphs|;
      assert forall p :: p in paragraphs[..n - 1] ==> p in paragraphs;
      NonBlankOfBlank(paragraphs[..n - 1]);
      assert paragraphs[n - 1] in paragraphs;
    }
  }

  /** Filtering twice keeps what filtering once keeps. */
  lemma {:induction false} NonBlankIdempotent(paragraphs: seq<string>)
    ensures NonBlank(NonBlank(paragraphs)) == NonBlank(paragraphs)
    decreases |paragraphs|
  {
    if paragraphs != [] {
      var n := |paragraphs|;
      var rest := NonBlank(paragraphs[..n - 1]);
      NonBlankIdempotent(paragraphs[..n - 1]);
      var last := paragraphs[n - 1];
      if Strip(last) != "" {
        var kept := rest + [last];
        assert kept[..|kept| - 1] == rest && kept[|kept| - 1] == last;
        assert NonBlank(kept) == NonBlank(rest) + [last];
      }
    }
  }

  /** "\n".join of the kept paragraphs: the text process_docx chunks. */
  function DocxText(paragraphs: seq<string>): string {
    Join("\n", NonBlank(paragraphs))
  }

  /** The records of a DOCX file: page 0 and ids "docx_0_{i}". */
  function DocxRecords(path: string, paragraphs: seq<string>, maxTokens: int, overlap: int): seq<ChunkRecord>
  {
    var chunks := Chunks(DocxText(paragraphs), maxTokens, overlap);
    seq(|chunks|, i requires 0 <= i < |chunks| => ChunkRecord(BaseName(path), 0, DocxChunkId(i), chunks[i]))
  }

  /** process_docx: the document's paragraph texts are what the DOCX
      library reads from the file at path. */
  method ProcessDocx(path: string, paragraphs: seq<string>,
                     maxTokens: int := DEFAULT_MAX_TOKENS, overlap: int := DEFAULT_OVERLAP)
    returns (records: seq<ChunkRecord>)
    ensures records == DocxRecords(path, paragraphs, maxTokens, overlap)
  {
    var text := Join("\n", NonBlank(paragraphs));
    var chunks := ChunkText(text, maxTokens, overlap);
    records := seq(|chunks|, i requires 0 <= i < |chunks| => ChunkRecord(BaseName(path), 0, DocxChunkId(i), chunks[i]));
  }

  /** Chunk ids are unique within a DOCX file, and there is at least one record. */
  lemma DocxIdsDistinct(path: string, paragraphs: seq<string>, maxTokens: int, overlap: int, a: nat, b: nat)
    requires a < b < |DocxRecords(path, paragraphs, maxTokens, overlap)|
    ensures DocxRecords(path, paragraphs, maxTokens, overlap)[a].chunkId
      != DocxRecords(path, paragraphs, maxTokens, overlap)[b].chunkId
  {
    if DocxChunkId(a) == DocxChunkId(b) {
      DocxChunkIdInjective(a, b);
    }
  }

  /** Blank paragraphs do not change a DOCX file's records. */
  lemma DocxIgnoresBlankParagraphs(path: string, paragraphs: seq<string>, maxTokens: int, overlap: int)
    ensures DocxRecords(path, paragraphs, maxTokens, overlap)
      == DocxRecords(path, NonBlank(paragraphs), maxTokens, overlap)
  {
    NonBlankIdempotent(paragraphs);
  }

  /** A DOCX file with no text still yields one record, with empty text. */
  lemma DocxAllBlank(path: string, paragraphs: seq<string>, maxTokens: int, overlap: int)
    requires forall p :: p in paragraphs ==> AllSpace(p)
    requires maxTokens >= 0
    ensures DocxRecords(path, paragraphs, maxTokens, overlap) == [ChunkRecord(BaseName(path), 0, "docx_0_0", "")]
  {
    NonBlankOfBlank(paragraphs);
    assert DocxText(paragraphs) == "";
    BlankText(DocxText(paragraphs), maxTokens, overlap);
    assert NatToString(0) == "0";
    assert DocxChunkId(0) == "docx_0_0";
    var rs := DocxRecords(path, paragraphs, maxTokens, overlap);
    assert |rs| == 1 && rs[0] == ChunkRecord(BaseName(path), 0, DocxChunkId(0), "");
  }

  // ----------------------------------------------------------- documents

  /** The records process_documents takes from one path: a path ending in
      ".pdf" is read as a PDF, else one ending in ".docx" as a DOCX file,
      and any other path gives none. pdfPages and docxParagraphs stand for
      what the two document libraries read from a file. */
  function FileRecords(path: string, pdfPages: string -> seq<string>, docxParagraphs: string -> seq<string>,
                       maxTokens: int, overlap: int): seq<ChunkRecord>
  {
    if EndsWith(path, ".pdf") then PdfRecords(path, pdfPages(path), maxTokens, overlap)
    else if EndsWith(path, ".docx") then DocxRecords(path, docxParagraphs(path), maxTokens, overlap)
    else []
  }

  /** The records of every path under perFile, in path order. */
  function Flatten(paths: seq<string>, perFile: string -> seq<ChunkRecord>): seq<ChunkRecord>
    decreases |paths|
  {
    if paths == [] then [] else Flatten(paths[..|paths| - 1], perFile) + perFile(paths[|paths| - 1])
  }

  lemma {:induction false} FlattenAppend(paths1: seq<string>, paths2: seq<string>, perFile: string -> seq<ChunkRecord>)
    ensures Flatten(paths1 + paths2, perFile) == Flatten(paths1, perFile) + Flatten(paths2, perFile)
    decreases |paths2|
  {
    if paths2 == [] {
      assert paths1 + paths2 == paths1;
    } else {
      var n := |paths2|;
      assert (paths1 + paths2)[..|paths1 + paths2| - 1] == paths1 + paths2[..n - 1];
      FlattenAppend(paths1, paths2[..n - 1], perFile);
    }
  }

  /** process_documents(paths): the records of every path, in path order. */
  function DocumentRecords(paths: seq<string>, pdfPages: string -> seq<string>,
                           docxParagraphs: string -> seq<string>, maxTokens: int, overlap: int): seq<ChunkRecord>
  {
    Flatten(paths, path => FileRecords(path, pdfPages, docxParagraphs, maxTokens, overlap))
  }

  lemma DocumentRecordsStep(paths: seq<string>, k: nat, pdfPages: string -> seq<string>,
                            docxParagraphs: string -> seq<string>, maxTokens: int, overlap: int)
    requires k < |paths|
    ensures DocumentRecords(paths[..k + 1], pdfPages, docxParagraphs, maxTokens, overlap)
      == DocumentRecords(paths[..k], pdfPages, docxParagraphs, maxTokens, overlap)
         + FileRecords(paths[k], pdfPages, docxParagraphs, maxTokens, overlap)
  {
    assert paths[..k + 1][..k] == paths[..k];
  }

  method ProcessDocuments(paths: seq<string>, pdfPages: string -> seq<string>, docxParagraphs: string -> seq<string>,
                          maxTokens: int := DEFAULT_MAX_TOKENS, overlap: int := DEFAULT_OVERLAP)
    returns (allChunks: seq<ChunkRecord>)
    ensures allChunks == DocumentRecords(paths, pdfPages, docxParagraphs, maxTokens, overlap)
  {
    allChunks := [];
    for k := 0 to |paths|
      invariant allChunks == DocumentRecords(paths[..k], pdfPages, docxParagraphs, maxTokens, overlap)
    {
      DocumentRecordsStep(paths, k, pdfPages, docxParagraphs, maxTokens, overlap);
      var path := paths[k];
      if EndsWith(path, ".pdf") {
        var records := ProcessPdf(path, pdfPages(path), maxTokens, overlap);
        allChunks := allChunks + records;
      } else if EndsWith(path, ".docx") {
        var records := ProcessDocx(path, docxParagraphs(path), maxTokens, overlap);
        allChunks := allChunks + records;
      }
    }
    assert paths[..|paths|] == paths;
  }

  /** Processing two lists of paths one after the other is processing
      their concatenation. */
  lemma DocumentsAppend(paths1: seq<string>, paths2: seq<string>, pdfPages: string -> seq<string>,
                        docxParagraphs: string -> seq<string>, maxTokens: int, overlap: int)
    ensures DocumentRecords(paths1 + paths2, pdfPages, docxParagraphs, maxTokens, overlap)
      == DocumentRecords(paths1, pdfPages, docxParagraphs, maxTokens, overlap)
         + DocumentRecords(paths2, pdfPages, docxParagraphs, maxTokens, overlap)
  {
    FlattenAppend(paths1, paths2, path => FileRecords(path, pdfPages, docxParagraphs, maxTokens, overlap));
  }

  /** A record comes from a file named path: it carries the file's base
      name, and a page number from 1 up for a PDF and 0 for a DOCX file. */
  predicate FromFile(r: ChunkRecord, path: string) {
    r.filename == BaseName(path)
    && ((EndsWith(path, ".pdf") && r.pageNumber >= 1)
        || (!EndsWith(path, ".pdf") && EndsWith(path, ".docx") && r.pageNumber == 0))
  }

  lemma FileRecordOrigin(path: string, pdfPages: string -> seq<string>, docxParagraphs: string -> seq<string>,
                         maxTokens: int, overlap: int, a: nat)
    requires a < |FileRecords(path, pdfPages, docxParagraphs, maxTokens, overlap)|
    ensures FromFile(FileRecords(path, pdfPages, docxParagraphs, maxTokens, overlap)[a], path)
  {
    if EndsWith(path, ".pdf") {
      var _ := PdfRecordShape(path, pdfPages(path), maxTokens, overlap, a);
    }
  }

  /** Every record process_documents returns comes from one of the given
      paths ending in ".pdf" or ".docx"; any other path contributes nothing. */
  lemma {:induction false} DocumentRecordOrigin(paths: seq<string>, pdfPages: string -> seq<string>,
                                                docxParagraphs: string -> seq<string>, maxTokens: int, overlap: int, a: nat)
    requires a < |DocumentRecords(paths, pdfPages, docxParagraphs, maxTokens, overlap)|
    ensures exists j :: 0 <= j < |paths| && FromFile(DocumentRecords(paths, pdfPages, docxParagraphs, maxTokens, overlap)[a], paths[j])
    decreases |paths|
  {
    var n := |paths|;
    var before := DocumentRecords(paths[..n - 1], pdfPages, docxParagraphs, maxTokens, overlap);
    var r := DocumentRecords(paths, pdfPages, docxParagraphs, maxTokens, overlap)[a];
    if a < |before| {
      DocumentRecordOrigin(paths[..n - 1], pdfPages, docxParagraphs, maxTokens, overlap, a);
      assert r == before[a];
      var j :| 0 <= j < n - 1 && FromFile(r, paths[..n - 1][j]);
      assert FromFile(r, paths[j]);
    } else {
      FileRecordOrigin(paths[n - 1], pdfPages, docxParagraphs, maxTokens, overlap, a - |before|);
      assert FromFile(r, paths[n - 1]);
    }
  }

  /** The extension test is case-sensitive: an upper-case ".PDF" file is skipped. */
  lemma UpperCaseExtensionSkipped(pdfPages: string -> seq<string>, docxParagraphs: string -> seq<string>,
                                  maxTokens: int, overlap: int)
    ensures DocumentRecords(["report.PDF"], pdfPages, docxParagraphs, maxTokens, overlap) == []
  {
    assert !EndsWith("report.PDF", ".pdf") by {
      assert "report.PDF"[6..] == ".PDF";
    }
    assert !EndsWith("report.PDF", ".docx") by {
      assert "report.PDF"[5..] == "t.PDF";
    }
  }
}
