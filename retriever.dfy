/** retriever.py: retrieve_top_k_chunks, which asks the vector store for the
    payloads nearest to a query vector and reshapes each dict payload into a
    four-field chunk record. The store's search is a parameter: the outcome
    of search(query_vector, top_k), which may raise. */
module Retriever {
  import opened Values
  import Config

  /** The fields every returned chunk record carries. */
  const RECORD_KEYS: set<string> := {"chunk_id", "filename", "page_number", "chunk_text"}

  /** The record built from one dict payload: the four fields, each
      defaulting to "" when the payload lacks it. */
  function Record(payload: map<string, Value>): (r: map<string, Value>)
    ensures r.Keys == RECORD_KEYS
  {
    map["chunk_id" := Get(payload, "chunk_id", Str("")),
        "filename" := Get(payload, "filename", Str("")),
        "page_number" := Get(payload, "page_number", Str("")),
        "chunk_text" := Get(payload, "chunk_text", Str(""))]
  }

  /** The records of the dict payloads, in search order; other payloads
      are skipped. */
  function Kept(payloads: seq<Value>): (records: seq<map<string, Value>>)
    ensures |records| <= |payloads|
    ensures forall k | 0 <= k < |records| :: records[k].Keys == RECORD_KEYS
    decreases |payloads|
  {
    if payloads == [] then []
    else
      var kept := Kept(payloads[..|payloads| - 1]);
      var last := payloads[|payloads| - 1];
      if last.Dict? then kept + [Record(last.entries)] else kept
  }

  /** What retrieve_top_k_chunks returns for a search outcome: [] when the
      search raises or returns nothing, the records of the dict payloads
      otherwise. Only a list is ever returned by the store's search; any
      other value is treated like an empty one. */
  function Retrieved(outcome: Outcome<Value>): (records: seq<map<string, Value>>)
    ensures forall k | 0 <= k < |records| :: "chunk_text" in records[k]
  {
    match outcome
    case Returned(List(results)) => Kept(results)
    case _ => []
  }

  /** retrieve_top_k_chunks(query_vector, top_k). */
  method RetrieveTopKChunks(queryVector: seq<real>, search: (seq<real>, int) -> Outcome<Value>,
                            topK: int := Config.TOP_K)
    returns (chunks: seq<map<string, Value>>)
    ensures chunks == Retrieved(search(queryVector, topK))
  {
    var outcome := search(queryVector, topK);
    if !outcome.Returned? || !outcome.value.List? || outcome.value.items == [] {
      return [];
    }
    var results := outcome.value.items;
    chunks := [];
    for i := 0 to |results|
      invariant chunks == Kept(results[..i])
    {
      assert results[..i + 1][..i] == results[..i];
      if results[i].Dict? {
        chunks := chunks + [Record(results[i].entries)];
      }
    }
    assert results[..|results|] == results;
  }

  /** A search that raises, returns None or returns no payloads gives []. */
  lemma RetrievedFallbacks(outcome: Outcome<Value>)
    requires outcome == Raised || outcome == Returned(NoneValue) || outcome == Returned(List([]))
    ensures Retrieved(outcome) == []
  {
  }

  /** Each field of a record is the payload's value, or "" when missing. */
  lemma RecordFields(payload: map<string, Value>, key: string)
    requires key in RECORD_KEYS
    ensures key in payload ==> Record(payload)[key] == payload[key]
    ensures key !in payload ==> Record(payload)[key] == Str("")
  {
  }

  /** Keys outside the four, such as the "id" written at ingestion, have no
      effect on the record. */
  lemma RecordIgnoresExtraKeys(payload: map<string, Value>, key: string, v: Value)
    requires key !in RECORD_KEYS
    ensures Record(payload[key := v]) == Record(payload)
  {
    assert Get(payload[key := v], "chunk_id", Str("")) == Get(payload, "chunk_id", Str(""));
    assert Get(payload[key := v], "filename", Str("")) == Get(payload, "filename", Str(""));
    assert Get(payload[key := v], "page_number", Str("")) == Get(payload, "page_number", Str(""));
    assert Get(payload[key := v], "chunk_text", Str("")) == Get(payload, "chunk_text", Str(""));
  }

  /** idx lists the positions of the dict payloads, in increasing order,
      and the records are theirs. */
  predicate KeptAt(idx: seq<nat>, payloads: seq<Value>, records: seq<map<string, Value>>) {
    && |idx| == |records|
    && (forall k | 0 <= k < |idx| ::
          idx[k] < |payloads| && payloads[idx[k]].Dict? && records[k] == Record(payloads[idx[k]].entries))
    && (forall k, l | 0 <= k < l < |idx| :: idx[k] < idx[l])
    && (forall j | 0 <= j < |payloads| && payloads[j].Dict? :: j in idx)
  }

  /** Appending a payload that is not a dict changes nothing. */
  lemma KeptAtSkip(idx: seq<nat>, payloads: seq<Value>, records: seq<map<string, Value>>, p: Value)
    requires KeptAt(idx, payloads, records) && !p.Dict?
    ensures KeptAt(idx, payloads + [p], records)
  {
    var ps := payloads + [p];
    assert forall j | 0 <= j < |payloads| :: ps[j] == payloads[j];
  }

  /** Appending a dict payload adds its position and its record. */
  lemma KeptAtKeep(idx: seq<nat>, payloads: seq<Value>, records: seq<map<string, Value>>, p: Value)
    requires KeptAt(idx, payloads, records) && p.Dict?
    ensures KeptAt(idx + [|payloads|], payloads + [p], records + [Record(p.entries)])
  {
    var ps := payloads + [p];
    var idx', records' := idx + [|payloads|], records + [Record(p.entries)];
    assert forall k | 0 <= k < |idx'| ::
        idx'[k] < |ps| && ps[idx'[k]].Dict? && records'[k] == Record(ps[idx'[k]].entries) by {
      forall k | 0 <= k < |idx'|
        ensures idx'[k] < |ps| && ps[idx'[k]].Dict? && records'[k] == Record(ps[idx'[k]].entries)
      {
        if k < |idx| {
          assert idx'[k] == idx[k] && records'[k] == records[k] && ps[idx[k]] == payloads[idx[k]];
        }
      }
    }
    assert forall k, l | 0 <= k < l < |idx'| :: idx'[k] < idx'[l] by {
      forall k, l | 0 <= k < l < |idx'| ensures idx'[k] < idx'[l] {
        if l < |idx| {
          assert idx'[k] == idx[k] && idx'[l] == idx[l];
        } else {
          assert idx'[k] == idx[k];
        }
      }
    }
    assert forall j | 0 <= j < |ps| && ps[j].Dict? :: j in idx' by {
      forall j | 0 <= j < |ps| && ps[j].Dict? ensures j in idx' {
        if j < |payloads| {
          assert ps[j] == payloads[j];
          var k :| 0 <= k < |idx| && idx[k] == j;
          assert idx'[k] == j;
        } else {
          assert idx'[|idx|] == j;
        }
      }
    }
  }

  /** The output keeps exactly the dict payloads, in search order. */
  lemma {:induction false} KeptExactlyDicts(payloads: seq<Value>) returns (idx: seq<nat>)
    ensures KeptAt(idx, payloads, Kept(payloads))
    decreases |payloads|
  {
    if payloads == [] {
      idx := [];
    } else {
      var n := |payloads|;
      var prefix := payloads[..n - 1];
      var p := payloads[n - 1];
      var idx0 := KeptExactlyDicts(prefix);
      assert prefix + [p] == payloads;
      if p.Dict? {
        KeptAtKeep(idx0, prefix, Kept(prefix), p);
        idx := idx0 + [n - 1];
      } else {
        KeptAtSkip(idx0, prefix, Kept(prefix), p);
        idx := idx0;
      }
    }
  }
}
