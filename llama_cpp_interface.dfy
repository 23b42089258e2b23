/** llama_cpp_interface.py: the sentence de-duplicator clean_repetitions and
    the never-raising wrapper generate_answer around the model call. */
module LlamaInterface {
  import opened Text
  import opened Values
  import Config

  /** What generate_answer returns when anything in it raises. */
  const GENERATION_FAILED: string := "Failed to generate an answer."

  // ------------------------------------------------------ clean_repetitions

  /** The lower-cased forms of a list of sentences. */
  function LowerSet(xs: seq<string>): set<string> {
    set k | 0 <= k < |xs| :: Lower(xs[k])
  }

  /** The sentences kept by the seen-set loop: each one whose lower-cased
      form has not been kept before, in order. */
  function Dedup(xs: seq<string>): seq<string>
    decreases |xs|
  {
    if xs == [] then []
    else
      var kept := Dedup(xs[..|xs| - 1]);
      var x := xs[|xs| - 1];
      if Lower(x) in LowerSet(kept) then kept else kept + [x]
  }

  /** sentence.strip() for every sentence. */
  function StripAll(xs: seq<string>): (ys: seq<string>)
    ensures |ys| == |xs|
  {
    seq(|xs|, k requires 0 <= k < |xs| => Strip(xs[k]))
  }

  /** clean_repetitions(text). */
  function Cleaned(text: string): string {
    Join(" ", Dedup(StripAll(SplitSentences(Strip(text)))))
  }

  lemma LowerSetAppend(xs: seq<string>, x: string)
    ensures LowerSet(xs + [x]) == LowerSet(xs) + {Lower(x)}
  {
    var ys := xs + [x];
    assert ys[|xs|] == x;
    forall y | y in LowerSet(ys) ensures y in LowerSet(xs) + {Lower(x)} {
      var k :| 0 <= k < |ys| && y == Lower(ys[k]);
      if k < |xs| { assert ys[k] == xs[k]; }
    }
    forall y | y in LowerSet(xs) ensures y in LowerSet(ys) {
      var k :| 0 <= k < |xs| && y == Lower(xs[k]);
      assert ys[k] == xs[k];
    }
  }

  lemma DedupStep(xs: seq<string>, i: nat)
    requires i < |xs|
    ensures Dedup(xs[..i + 1]) ==
      if Lower(xs[i]) in LowerSet(Dedup(xs[..i])) then Dedup(xs[..i]) else Dedup(xs[..i]) + [xs[i]]
  {
    assert xs[..i + 1][..i] == xs[..i];
  }

  method CleanRepetitions(text: string) returns (r: string)
    ensures r == Cleaned(text)
  {
    var sentences := SplitSentences(Strip(text));
    var stripped := StripAll(sentences);
    var seen: set<string> := {};
    var cleaned: seq<string> := [];
    for i := 0 to |sentences|
      invariant cleaned == Dedup(stripped[..i])
      invariant seen == LowerSet(cleaned)
    {
      var s := Strip(sentences[i]);
      assert s == stripped[i];
      DedupStep(stripped, i);
      if Lower(s) !in seen {
        LowerSetAppend(cleaned, s);
        cleaned := cleaned + [s];
        seen := seen + {Lower(s)};
      }
    }
    assert stripped[..|sentences|] == stripped;
    r := Join(" ", cleaned);
  }

  /** idx picks the elements of a out of b, in increasing positions. */
  predicate Embeds(idx: seq<nat>, a: seq<string>, b: seq<string>)
  {
    && |idx| == |a|
    && (forall k | 0 <= k < |idx| :: idx[k] < |b| && b[idx[k]] == a[k])
    && (forall k, l | 0 <= k < l < |idx| :: idx[k] < idx[l])
  }

  /** An embedding survives appending to b, and extends by the new element. */
  lemma EmbedsAppend(idx: seq<nat>, a: seq<string>, b: seq<string>, x: string)
    requires Embeds(idx, a, b)
    ensures Embeds(idx, a, b + [x])
    ensures Embeds(idx + [|b|], a + [x], b + [x])
  {
    var b' := b + [x];
    assert forall k | 0 <= k < |b| :: b'[k] == b[k];
    var idx' := idx + [|b|];
    var a' := a + [x];
    assert forall k | 0 <= k < |idx| :: idx'[k] == idx[k] && a'[k] == a[k];
  }

  /** The kept sentences are some of the input, in input order. */
  lemma {:induction false} DedupSubsequence(xs: seq<string>) returns (idx: seq<nat>)
    ensures Embeds(idx, Dedup(xs), xs)
    decreases |xs|
  {
    if xs == [] {
      idx := [];
    } else {
      var prefix := xs[..|xs| - 1];
      var x := xs[|xs| - 1];
      var kept := Dedup(prefix);
      var idx0 := DedupSubsequence(prefix);
      EmbedsAppend(idx0, kept, prefix, x);
      assert prefix + [x] == xs;
      if Lower(x) in LowerSet(kept) {
        idx := idx0;
      } else {
        idx := idx0 + [|prefix|];
      }
    }
  }

  /** No two kept sentences are equal ignoring case. */
  lemma {:induction false} DedupDistinct(xs: seq<string>, a: nat, b: nat)
    requires a < b < |Dedup(xs)|
    ensures Lower(Dedup(xs)[a]) != Lower(Dedup(xs)[b])
    decreases |xs|
  {
    var prefix := xs[..|xs| - 1];
    var kept := Dedup(prefix);
    if b < |kept| {
      DedupDistinct(prefix, a, b);
    } else {
      assert Dedup(xs)[a] == kept[a];
      assert Lower(kept[a]) in LowerSet(kept);
    }
  }

  /** Every input sentence has a case-insensitive equal among the kept ones. */
  lemma {:induction false} DedupCovers(xs: seq<string>, i: nat)
    requires i < |xs|
    ensures Lower(xs[i]) in LowerSet(Dedup(xs))
    decreases |xs|
  {
    var prefix := xs[..|xs| - 1];
    var kept := Dedup(prefix);
    LowerSetAppend(kept, xs[|xs| - 1]);
    if i < |xs| - 1 {
      DedupCovers(prefix, i);
    }
  }

  /** No earlier sentence equals xs[i] ignoring case. */
  predicate FirstOccurrence(xs: seq<string>, i: nat)
    requires i < |xs|
  {
    forall j | 0 <= j < i :: Lower(xs[j]) != Lower(xs[i])
  }

  /** Each first occurrence is kept, with its own casing. */
  lemma {:induction false} DedupKeepsFirst(xs: seq<string>, i: nat)
    requires i < |xs| && FirstOccurrence(xs, i)
    ensures xs[i] in Dedup(xs)
    decreases |xs|
  {
    var n := |xs|;
    var prefix := xs[..n - 1];
    var kept := Dedup(prefix);
    if i < n - 1 {
      assert FirstOccurrence(prefix, i);
      DedupKeepsFirst(prefix, i);
    } else {
      var idx := DedupSubsequence(prefix);
      forall k | 0 <= k < |kept| ensures Lower(kept[k]) != Lower(xs[i]) {
        assert kept[k] == xs[idx[k]];
      }
      assert Lower(xs[i]) !in LowerSet(kept);
      assert Dedup(xs) == kept + [xs[i]];
    }
  }

  /** Every kept sentence is the first occurrence of its lower-cased form. */
  lemma {:induction false} DedupOnlyFirst(xs: seq<string>, k: nat)
    requires k < |Dedup(xs)|
    ensures exists i :: 0 <= i < |xs| && xs[i] == Dedup(xs)[k] && FirstOccurrence(xs, i)
    decreases |xs|
  {
    var n := |xs|;
    var prefix := xs[..n - 1];
    var kept := Dedup(prefix);
    if k < |kept| {
      DedupOnlyFirst(prefix, k);
      var i :| 0 <= i < |prefix| && prefix[i] == kept[k] && FirstOccurrence(prefix, i);
      assert xs[i] == Dedup(xs)[k] && FirstOccurrence(xs, i);
    } else {
      assert Dedup(xs)[k] == xs[n - 1];
      forall j | 0 <= j < n - 1 ensures Lower(xs[j]) != Lower(xs[n - 1]) {
        DedupCovers(prefix, j);
      }
      assert FirstOccurrence(xs, n - 1);
    }
  }

  lemma NotInLowerSet(xs: seq<string>, x: string)
    requires forall k | 0 <= k < |xs| :: Lower(xs[k]) != Lower(x)
    ensures Lower(x) !in LowerSet(xs)
  {
  }

  /** No two sentences are equal ignoring case. */
  predicate NoRepeats(xs: seq<string>) {
    forall a, b | 0 <= a < b < |xs| :: Lower(xs[a]) != Lower(xs[b])
  }

  /** Without repeated sentences nothing is dropped. */
  lemma {:induction false} DedupNoRepeats(xs: seq<string>)
    requires NoRepeats(xs)
    ensures Dedup(xs) == xs
    decreases |xs|
  {
    if xs != [] {
      var n := |xs|;
      var prefix := xs[..n - 1];
      assert NoRepeats(prefix) by {
        forall a, b | 0 <= a < b < |prefix| ensures Lower(prefix[a]) != Lower(prefix[b]) {
          assert prefix[a] == xs[a] && prefix[b] == xs[b];
        }
      }
      DedupNoRepeats(prefix);
      forall k | 0 <= k < |prefix| ensures Lower(prefix[k]) != Lower(xs[n - 1]) {
        assert prefix[k] == xs[k];
      }
      NotInLowerSet(prefix, xs[n - 1]);
      assert prefix + [xs[n - 1]] == xs;
    }
  }

  /** Whitespace-only text cleans to "". */
  lemma CleanedBlank(text: string)
    requires AllSpace(text)
    ensures Cleaned(text) == ""
  {
    assert Strip(text) == "";
    assert SplitSentences("") == [""];
    assert StripAll([""]) == [""];
    assert Dedup([""]) == [""] by {
      assert [""][..0] == [];
    }
  }

  /** Without repeated sentences cleaning only collapses the whitespace
      between sentences to one space. */
  lemma CleanedNoRepeats(text: string)
    requires NoRepeats(SplitSentences(Strip(text)))
    ensures Cleaned(text) == Join(" ", SplitSentences(Strip(text)))
  {
    var t := Strip(text);
    var ss := SplitSentences(t);
    if t != "" {
      SentencesAreTrimmed(t);
    } else {
      assert ss == [""];
    }
    forall k | 0 <= k < |ss| ensures Strip(ss[k]) == ss[k] {
      StripUnchanged(ss[k]);
    }
    assert StripAll(ss) == ss;
    DedupNoRepeats(ss);
  }

  /** Python's Strip is idempotent, so the strip of the raw reply before
      clean_repetitions changes nothing. */
  lemma CleanedOfStripped(text: string)
    ensures Cleaned(Strip(text)) == Cleaned(text)
  {
    StripUnchanged(Strip(text));
  }

  // ------------------------------------------------------- generate_answer

  /** The stripped text of result["choices"][0]: the "text" field of a dict
      choice, or the choice itself when it is a string; None when any of
      the lookups or the strip would raise. */
  function ReplyText(result: Value): Option<string> {
    if !result.Dict? || "choices" !in result.entries then None
    else
      var choices := result.entries["choices"];
      var first: Option<Value> :=
        match choices
        case List(items) => if items == [] then None else Some(items[0])
        case Str(t) => if t == [] then None else Some(Str([t[0]]))
        case _ => None;
      match first
      case None => None
      case Some(Dict(c)) =>
        if "text" in c && c["text"].Str? then Some(Strip(c["text"].s)) else None
      case Some(Str(t)) => Some(Strip(t))
      case Some(_) => None
  }

  /** generate_answer(chunk, user_query): every exception inside is caught,
      so the call always returns a string. */
  function GenerateAnswer(chunk: Value, userQuery: string, llm: string -> Outcome<Value>): (answer: string)
    ensures answer == GENERATION_FAILED || exists raw :: answer == Cleaned(raw)
  {
    if !chunk.Dict? then GENERATION_FAILED
    else
      match llm(Config.Prompt(chunk.entries, userQuery))
      case Raised => GENERATION_FAILED
      case Returned(result) =>
        match ReplyText(result)
        case None => GENERATION_FAILED
        case Some(raw) => Cleaned(raw)
  }

  /** A chunk that is not a dict, a model call that raises and a reply
      without a first choice all give the fixed failure message. */
  lemma GenerateAnswerFailures(chunk: Value, userQuery: string, llm: string -> Outcome<Value>)
    requires || !chunk.Dict?
             || llm(Config.Prompt(chunk.entries, userQuery)) == Raised
             || llm(Config.Prompt(chunk.entries, userQuery)) == Returned(Dict(map["choices" := List([])]))
    ensures GenerateAnswer(chunk, userQuery, llm) == GENERATION_FAILED
  {
  }

  /** The lookups of result["choices"][0]["text"].strip() raise when the
      reply is not a dict, has no "choices", or its first choice is a dict
      without a "text" entry or with a "text" that is not a string. */
  lemma MalformedReplyText(reply: Value, first: map<string, Value>, rest: seq<Value>)
    requires || !reply.Dict?
             || "choices" !in reply.entries
             || (reply == Dict(map["choices" := List([Dict(first)] + rest)])
                 && ("text" !in first || !first["text"].Str?))
    ensures ReplyText(reply) == None
  {
    if reply.Dict? && "choices" in reply.entries {
      assert reply.entries["choices"].items[0] == Dict(first);
    }
  }

  /** The except turns any of those lookup failures into the failure
      message. */
  lemma GenerateAnswerMalformedReply(chunk: map<string, Value>, userQuery: string,
                                     llm: string -> Outcome<Value>, reply: Value,
                                     first: map<string, Value>, rest: seq<Value>)
    requires llm(Config.Prompt(chunk, userQuery)) == Returned(reply)
    requires || !reply.Dict?
             || "choices" !in reply.entries
             || (reply == Dict(map["choices" := List([Dict(first)] + rest)])
                 && ("text" !in first || !first["text"].Str?))
    ensures GenerateAnswer(Dict(chunk), userQuery, llm) == GENERATION_FAILED
  {
    MalformedReplyText(reply, first, rest);
  }

  /** The reply shape llama.cpp produces: {"choices": [{"text": t}]}. */
  function DictReply(t: string): Value {
    Dict(map["choices" := List([Dict(map["text" := Str(t)])])])
  }

  /** The older reply shape with a plain string choice: {"choices": [t]}. */
  function StringReply(t: string): Value {
    Dict(map["choices" := List([Str(t)])])
  }

  lemma ReplyTextOfDictReply(t: string)
    ensures ReplyText(DictReply(t)) == Some(Strip(t))
  {
    var c := map["text" := Str(t)];
    assert DictReply(t).entries["choices"] == List([Dict(c)]);
  }

  lemma ReplyTextOfStringReply(t: string)
    ensures ReplyText(StringReply(t)) == Some(Strip(t))
  {
    assert StringReply(t).entries["choices"] == List([Str(t)]);
  }

  /** A dict-shaped reply with text t yields clean_repetitions(t). */
  lemma GenerateAnswerFromDictReply(chunk: map<string, Value>, userQuery: string,
                                    llm: string -> Outcome<Value>, t: string)
    requires llm(Config.Prompt(chunk, userQuery)) == Returned(DictReply(t))
    ensures GenerateAnswer(Dict(chunk), userQuery, llm) == Cleaned(t)
  {
    ReplyTextOfDictReply(t);
    CleanedOfStripped(t);
  }

  /** A string-shaped reply t yields clean_repetitions(t). */
  lemma GenerateAnswerFromStringReply(chunk: map<string, Value>, userQuery: string,
                                      llm: string -> Outcome<Value>, t: string)
    requires llm(Config.Prompt(chunk, userQuery)) == Returned(StringReply(t))
    ensures GenerateAnswer(Dict(chunk), userQuery, llm) == Cleaned(t)
  {
    ReplyTextOfStringReply(t);
    CleanedOfStripped(t);
  }
}
