/** The retriever: asks the vector store for the `k` nearest chunks and turns
    the ranked hits into the `{chunks, sources, context}` answer that the
    generator consumes. */
module Retrieval {
  import opened Common
  import opened Text
  import opened VectorStorage

  /** One entry of the `chunks` list of a retrieval. */
  datatype SourcedChunk = SourcedChunk(text: string, source: Value, chunkIndex: Value, distance: Option<real>)

  /** The dict `retrieve_with_sources` returns. */
  datatype Retrieved = Retrieved(chunks: seq<SourcedChunk>, sources: seq<Value>, context: string)

  const DefaultK: int := 5
  const UnknownSource: Value := Str("Unknown")
  const ContextSeparator := "\n\n"

  /** The message of the `AttributeError` raised by `metadata.get` when the
      store returned `None` as a hit's metadata. */
  const NoMetadataMessage := "'NoneType' object has no attribute 'get'"

  /** `d.get(key, default)`. */
  function GetOr(m: Metadata, key: string, default: Value): (r: Value)
    ensures key in m ==> r == m[key]
    ensures key !in m ==> r == default
  {
    if key in m then m[key] else default
  }

  /** Lists and dicts cannot be put in a Python set. */
  predicate Hashable(v: Value)
  {
    !v.List? && !v.Dict?
  }

  /** The message of the `TypeError` raised by `set.add` on a list or dict. */
  function UnhashableMessage(v: Value): string
    requires !Hashable(v)
  {
    "unhashable type: '" + (if v.List? then "list" else "dict") + "'"
  }

  /** The chunk entry built from one search hit, or the exception the loop
      body raises on it. */
  function SourceChunk(hit: SearchResult): Result<SourcedChunk>
  {
    if hit.metadata.None? then Err(NoMetadataMessage)
    else
      var name := GetOr(hit.metadata.value, "document_name", UnknownSource);
      if !Hashable(name) then Err(UnhashableMessage(name))
      else Ok(SourcedChunk(hit.text, name, GetOr(hit.metadata.value, "chunk_index", Int(0)), hit.distance))
  }

  /** The chunk entries of the first `n` hits, in rank order, or the first
      exception among them. */
  function ChunksUpTo(hits: seq<SearchResult>, n: nat): Result<seq<SourcedChunk>>
    requires n <= |hits|
  {
    if n == 0 then Ok([])
    else
      match ChunksUpTo(hits, n - 1)
      case Err(e) => Err(e)
      case Ok(cs) =>
        match SourceChunk(hits[n - 1])
        case Err(e) => Err(e)
        case Ok(c) => Ok(cs + [c])
  }

  /** The chunk entries of all hits, or the first exception. */
  function ChunksOf(hits: seq<SearchResult>): Result<seq<SourcedChunk>>
  {
    ChunksUpTo(hits, |hits|)
  }

  /** `set.add` on the list of sources seen so far. */
  function AddSource(sources: seq<Value>, v: Value): seq<Value>
  {
    if v in sources then sources else sources + [v]
  }

  /** The distinct sources of the chunks. They are listed in order of first
      appearance; Python's `list(set)` promises no order, so only membership
      and uniqueness are stated about them. */
  function SourcesOf(chunks: seq<SourcedChunk>): seq<Value>
  {
    if chunks == [] then []
    else AddSource(SourcesOf(chunks[..|chunks| - 1]), chunks[|chunks| - 1].source)
  }

  /** The texts of the chunks, in order. */
  function Texts(chunks: seq<SourcedChunk>): seq<string>
  {
    seq(|chunks|, i requires 0 <= i < |chunks| => chunks[i].text)
  }

  /** The answer of `retrieve_with_sources` for the hits `retrieve` returned. */
  function WithSources(hits: seq<SearchResult>): Result<Retrieved>
  {
    if hits == [] then Ok(Retrieved([], [], ""))
    else
      match ChunksOf(hits)
      case Err(e) => Err(e)
      case Ok(cs) => Ok(Retrieved(cs, SourcesOf(cs), Join(Texts(cs), ContextSeparator)))
  }

  class Retriever {
    const store: VectorStore
    const defaultK: int := DefaultK

    constructor(store: VectorStore)
      ensures this.store == store
    {
      this.store := store;
    }

    /** `retrieve`: asks the store for `k or 5` hits, `engine` being the
        engine's answer for a given `n_results`, and passes the store's list
        through unchanged. */
    method Retrieve(k: Option<int> := None, engine: int -> Result<QueryAnswer>) returns (hits: seq<SearchResult>)
      ensures hits == Formatted(engine(OrInt(k, defaultK)))
    {
      hits := store.Search(engine(OrInt(k, defaultK)));
    }

    /** `retrieve_with_sources`: one chunk entry per hit in rank order, the
        distinct sources, and the texts joined by a blank line; an `Err` is
        the exception that escapes to the caller. */
    method RetrieveWithSources(k: Option<int> := None, engine: int -> Result<QueryAnswer>) returns (r: Result<Retrieved>)
      ensures r == WithSources(Formatted(engine(OrInt(k, defaultK))))
    {
      var hits := Retrieve(k, engine);
      if hits == [] {
        return Ok(Retrieved([], [], ""));
      }
      var sources: seq<Value> := [];
      var chunks: seq<SourcedChunk> := [];
      var i := 0;
      while i < |hits|
        invariant 0 <= i <= |hits|
        invariant ChunksUpTo(hits, i) == Ok(chunks) && |chunks| == i
        invariant sources == SourcesOf(chunks)
      {
        var hit := hits[i];
        if hit.metadata.None? {
          ErrorAborts(hits, i + 1, NoMetadataMessage);
          return Err(NoMetadataMessage);
        }
        var metadata := hit.metadata.value;
        var name := if "document_name" in metadata then metadata["document_name"] else UnknownSource;
        if !Hashable(name) {
          ErrorAborts(hits, i + 1, UnhashableMessage(name));
          return Err(UnhashableMessage(name));
        }
        if name !in sources {
          sources := sources + [name];
        }
        var index := if "chunk_index" in metadata then metadata["chunk_index"] else Int(0);
        var chunk := SourcedChunk(hit.text, name, index, hit.distance);
        ChunksOfStep(hits, i, chunks, chunk);
        chunks := chunks + [chunk];
        i := i + 1;
      }
      r := Ok(Retrieved(chunks, sources, Join(Texts(chunks), ContextSeparator)));
    }
  }

  /** One pass of the loop on a hit that yields a chunk entry. */
  lemma ChunksOfStep(hits: seq<SearchResult>, i: nat, chunks: seq<SourcedChunk>, chunk: SourcedChunk)
    requires i < |hits|
    requires ChunksUpTo(hits, i) == Ok(chunks)
    requires SourceChunk(hits[i]) == Ok(chunk)
    ensures ChunksUpTo(hits, i + 1) == Ok(chunks + [chunk])
    ensures SourcesOf(chunks + [chunk]) == AddSource(SourcesOf(chunks), chunk.source)
  {
    assert (chunks + [chunk])[..|chunks|] == chunks;
  }

  /** Once a hit raises, the whole loop raises the same exception. */
  lemma {:induction false} ErrorAborts(hits: seq<SearchResult>, i: nat, e: string)
    requires i <= |hits|
    requires ChunksUpTo(hits, i) == Err(e)
    ensures ChunksOf(hits) == Err(e)
    decreases |hits| - i
  {
    if i < |hits| {
      ErrorAborts(hits, i + 1, e);
    }
  }

  /** Every chunk entry carries its hit's text and distance, the source is the
      hit's `document_name` or `"Unknown"`, and the index its `chunk_index`
      or 0, in rank order. */
  lemma {:induction false} ChunksUpToAgree(hits: seq<SearchResult>, n: nat)
    requires n <= |hits| && ChunksUpTo(hits, n).Ok?
    ensures |ChunksUpTo(hits, n).value| == n
    ensures forall i :: 0 <= i < n ==>
      hits[i].metadata.Some? &&
      ChunksUpTo(hits, n).value[i] == SourcedChunk(hits[i].text,
        GetOr(hits[i].metadata.value, "document_name", UnknownSource),
        GetOr(hits[i].metadata.value, "chunk_index", Int(0)), hits[i].distance)
  {
    if n > 0 {
      ChunksUpToAgree(hits, n - 1);
    }
  }

  /** The loop raises exactly when some hit has `None` metadata or a list or
      dict as its `document_name`. */
  lemma {:induction false} ChunksUpToFails(hits: seq<SearchResult>, n: nat)
    requires n <= |hits|
    ensures ChunksUpTo(hits, n).Err? <==> exists i :: 0 <= i < n && SourceChunk(hits[i]).Err?
  {
    if n > 0 {
      ChunksUpToFails(hits, n - 1);
      if ChunksUpTo(hits, n).Err? && ChunksUpTo(hits, n - 1).Ok? {
        assert SourceChunk(hits[n - 1]).Err?;
      }
    }
  }

  /** The sources are exactly the chunks' sources, each listed once. */
  lemma {:induction false} SourcesOfDistinct(chunks: seq<SourcedChunk>)
    ensures forall v :: v in SourcesOf(chunks) <==> exists i :: 0 <= i < |chunks| && chunks[i].source == v
    ensures forall i, j :: 0 <= i < j < |SourcesOf(chunks)| ==> SourcesOf(chunks)[i] != SourcesOf(chunks)[j]
  {
    if chunks != [] {
      var init := chunks[..|chunks| - 1];
      SourcesOfDistinct(init);
      forall v | v in SourcesOf(chunks)
        ensures exists i :: 0 <= i < |chunks| && chunks[i].source == v
      {
        if v in SourcesOf(init) {
          var i :| 0 <= i < |init| && init[i].source == v;
          assert chunks[i] == init[i];
        } else {
          assert chunks[|chunks| - 1].source == v;
        }
      }
      forall v | exists i :: 0 <= i < |chunks| && chunks[i].source == v
        ensures v in SourcesOf(chunks)
      {
        var i :| 0 <= i < |chunks| && chunks[i].source == v;
        if i < |init| {
          assert init[i] == chunks[i];
        }
      }
    }
  }

  /** `retrieve_with_sources` on its successful path: one chunk per hit, the
      distinct sources, and the context made of the chunk texts joined by a
      blank line; no hits give the empty answer. */
  lemma RetrievalShape(hits: seq<SearchResult>)
    requires WithSources(hits).Ok?
    ensures var r := WithSources(hits).value;
      |r.chunks| == |hits| &&
      (forall i :: 0 <= i < |hits| ==> r.chunks[i].text == hits[i].text && r.chunks[i].distance == hits[i].distance) &&
      (forall v :: v in r.sources <==> exists i :: 0 <= i < |r.chunks| && r.chunks[i].source == v) &&
      (forall i, j :: 0 <= i < j < |r.sources| ==> r.sources[i] != r.sources[j]) &&
      r.context == Join(Texts(r.chunks), ContextSeparator)
    ensures hits == [] ==> WithSources(hits).value == Retrieved([], [], "")
  {
    if hits != [] {
      ChunksUpToAgree(hits, |hits|);
      SourcesOfDistinct(ChunksOf(hits).value);
    }
  }
}
