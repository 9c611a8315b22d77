/** The question-answering pipeline: checks that some backend is usable,
    retrieves context, asks the backend, and records a successful exchange
    in the chat history. */
module Generation {
  import opened Common
  import AppConfig
  import opened VectorStorage
  import opened Retrieval
  import opened Llm
  import opened DocumentStorage

  const NoLlmAnswer := "No language model is currently available. Please configure OpenAi API key or ensure Ollama is running."
  const NoLlmError := "No LLM available"
  const NoDocumentsAnswer := "I don't have any relevant documents to answer your question."
  const NoDocumentsNote := "No relevant documents found in the knowledge base."
  const FailedAnswer := "Sorry, I couldn't generate a response. There might be an issue with the language model."
  const FailedError := "LLM generation failed"
  const ErrorAnswerPrefix := "An error occurred while processing your question: "

  /** The dict `generate_response` returns; `error` and `note` are present
      only in some outcomes. */
  datatype Response = Response(answer: string, sources: seq<Value>, chunks: seq<SourcedChunk>,
                               error: Option<string>, note: Option<string>)

  /** The response for the outcomes of the steps: whether any backend is
      usable, the retrieval (or the exception it raised), and the answers
      the backend gives without context and with the retrieved context. */
  function Decide(anyAvailable: bool, retrieval: Result<Retrieved>,
                  fallback: Option<string>, answer: Option<string>): Response
  {
    if !anyAvailable then Response(NoLlmAnswer, [], [], Some(NoLlmError), None)
    else if retrieval.Err? then
      Response(ErrorAnswerPrefix + retrieval.message, [], [], Some(retrieval.message), None)
    else if retrieval.value.chunks == [] then
      Response(OrString(fallback, NoDocumentsAnswer), [], [], None, Some(NoDocumentsNote))
    else if answer.None? || answer.value == "" then
      Response(FailedAnswer, retrieval.value.sources, retrieval.value.chunks, Some(FailedError), None)
    else Response(answer.value, retrieval.value.sources, retrieval.value.chunks, None, None)
  }

  /** Whether the outcome is a success, the one that is recorded. */
  predicate Succeeds(anyAvailable: bool, retrieval: Result<Retrieved>, answer: Option<string>)
  {
    anyAvailable && retrieval.Ok? && retrieval.value.chunks != [] && answer.Some? && answer.value != ""
  }

  /** The chat record of a successful exchange. */
  function Interaction(query: string, answer: string, retrieval: Retrieved): Metadata
  {
    map["type" := Str("interaction"), "query" := Str(query), "answer" := Str(answer),
        "sources" := List(retrieval.sources), "num_chunks" := Int(|retrieval.chunks|)]
  }

  /** The retrieval `generate_response` performs for a given `k`. */
  function RetrievalFor(k: int, engine: int -> Result<QueryAnswer>): Result<Retrieved>
  {
    WithSources(Formatted(engine(OrInt(Some(k), DefaultK))))
  }

  class RagGenerator {
    const llm: LlmManager
    const retriever: Retriever
    const documents: DocumentStore

    /** `__init__`: the registry built from the configuration, a retriever
        over the vector store, and the document store. */
    constructor(config: AppConfig.Config, ollamaUp: bool, vectorStore: VectorStore,
                documentsFile: Option<map<string, Metadata>>, chatHistoryFile: Option<seq<Metadata>>)
      ensures llm.geminiKey == config.geminiApiKey && llm.Valid()
      ensures llm.ollamaBaseUrl == config.ollamaBaseUrl && llm.ollamaModel == config.ollamaModel
      ensures llm.defaultHandler == (if config.geminiApiKey != "" then Some(GeminiName)
        else if ollamaUp then Some(OllamaName) else None)
      ensures retriever.store == vectorStore
      ensures documents.documentsFile == documentsFile && documents.chatHistoryFile == chatHistoryFile
      ensures fresh(llm) && fresh(retriever) && fresh(documents)
    {
      llm := new LlmManager(config, ollamaUp);
      retriever := new Retriever(vectorStore);
      documents := new DocumentStore(documentsFile, chatHistoryFile);
    }

    /** The answer the backend gives with the retrieved context, when the
        retrieval succeeded. */
    function ContextAnswer(query: string, llmName: Option<string>, retrieval: Result<Retrieved>, services: Services): Option<string>
      reads this, llm
    {
      if retrieval.Ok? then llm.Answer(query, retrieval.value.context, llmName, services) else None
    }

    /** The response of `generate_response` for the behaviour of the vector
        engine and of the backends. */
    function Reply(query: string, llmName: Option<string>, k: int, upAtAny: bool,
                   engine: int -> Result<QueryAnswer>, services: Services): Response
      reads this, llm
    {
      var retrieval := RetrievalFor(k, engine);
      Decide(llm.IsAnyAvailable(upAtAny), retrieval, llm.Answer(query, "", llmName, services),
             ContextAnswer(query, llmName, retrieval, services))
    }

    /** The chat record `generate_response` saves, if any. */
    function ChatEntry(query: string, llmName: Option<string>, k: int, upAtAny: bool,
                       engine: int -> Result<QueryAnswer>, services: Services): Option<Metadata>
      reads this, llm
    {
      var retrieval := RetrievalFor(k, engine);
      var answer := ContextAnswer(query, llmName, retrieval, services);
      if Succeeds(llm.IsAnyAvailable(upAtAny), retrieval, answer)
      then Some(Interaction(query, answer.value, retrieval.value))
      else None
    }

    /** `generate_response`. `upAtAny` is the Ollama probe of the initial
        availability check, `services` the backends as they behave during the
        generation call, `engine` the vector engine's answer for a given
        number of results; `now` and `written` go to the chat history. */
    method GenerateResponse(query: string, llmName: Option<string> := None, k: int := 5,
                            upAtAny: bool, engine: int -> Result<QueryAnswer>, services: Services,
                            now: string, written: bool)
      returns (response: Response)
      modifies documents
      ensures response == old(Reply(query, llmName, k, upAtAny, engine, services))
      ensures documents.documentsFile == old(documents.documentsFile)
      ensures var entry := old(ChatEntry(query, llmName, k, upAtAny, engine, services));
        documents.chatHistoryFile == if entry.Some? && written
          then Some(Appended(if old(documents.chatHistoryFile).Some? then old(documents.chatHistoryFile).value else [],
                             entry.value, now))
          else old(documents.chatHistoryFile)
    {
      if !llm.IsAnyAvailable(upAtAny) {
        return Response(NoLlmAnswer, [], [], Some(NoLlmError), None);
      }
      var retrieval := retriever.RetrieveWithSources(Some(k), engine);
      assert retrieval == RetrievalFor(k, engine);
      if retrieval.Err? {
        return Response(ErrorAnswerPrefix + retrieval.message, [], [], Some(retrieval.message), None);
      }
      if retrieval.value.chunks == [] {
        var fallback := llm.GenerateResponse(query, "", llmName, services);
        return Response(OrString(fallback, NoDocumentsAnswer), [], [], None, Some(NoDocumentsNote));
      }
      var answer := llm.GenerateResponse(query, retrieval.value.context, llmName, services);
      if answer.None? || answer.value == "" {
        return Response(FailedAnswer, retrieval.value.sources, retrieval.value.chunks, Some(FailedError), None);
      }
      SaveChatInteraction(query, answer.value, retrieval.value, now, written);
      response := Response(answer.value, retrieval.value.sources, retrieval.value.chunks, None, None);
    }

    /** `_save_chat_interaction`: appends the exchange to the chat history;
        a failure to write is swallowed. */
    method SaveChatInteraction(query: string, answer: string, retrieval: Retrieved, now: string, written: bool)
      modifies documents
      ensures documents.documentsFile == old(documents.documentsFile)
      ensures documents.chatHistoryFile == if written
        then Some(Appended(if old(documents.chatHistoryFile).Some? then old(documents.chatHistoryFile).value else [],
                           Interaction(query, answer, retrieval), now))
        else old(documents.chatHistoryFile)
    {
      var _ := documents.SaveChatMessage(Interaction(query, answer, retrieval), now, written);
    }

    /** `get_available_llms`. */
    function AvailableLlms(ollamaUp: bool): (r: seq<string>)
      ensures forall name :: name in r <==> name in Registry && llm.Available(name, ollamaUp)
      ensures |r| == 2 ==> r == Registry
    {
      AvailableHandlersExact(llm, ollamaUp);
      llm.AvailableHandlers(ollamaUp)
    }

    /** `set_default_llm`. */
    method SetDefaultLlm(name: string, ollamaUp: bool) returns (ok: bool)
      requires llm.Valid()
      modifies llm
      ensures llm.Valid()
      ensures ok <==> name in Registry && llm.Available(name, ollamaUp)
      ensures llm.defaultHandler == if ok then Some(name) else old(llm.defaultHandler)
    {
      ok := llm.SetDefaultHandler(name, ollamaUp);
    }
  }

  /** Every outcome answers with a non-empty text; `error` is set exactly on
      the no-backend, exception and failed-generation outcomes; `note` only
      when nothing was retrieved; sources and chunks are the retrieval's
      whenever any are returned, and only chunks bring sources. Each outcome
      carries its own texts: the backend's answer on success, the fixed
      failure text with the retrieved chunks and sources on a failed
      generation, the backend's context-free answer (or the fixed text)
      when nothing was retrieved. */
  lemma DecideShape(anyAvailable: bool, retrieval: Result<Retrieved>, fallback: Option<string>, answer: Option<string>)
    requires retrieval.Ok? ==> (retrieval.value.chunks == [] ==> retrieval.value.sources == [])
    ensures var r := Decide(anyAvailable, retrieval, fallback, answer);
      r.answer != "" &&
      (r.error.Some? <==> !anyAvailable || retrieval.Err? || (retrieval.value.chunks != [] && !Succeeds(anyAvailable, retrieval, answer))) &&
      (r.note.Some? <==> anyAvailable && retrieval.Ok? && retrieval.value.chunks == []) &&
      (r.error.None? && r.note.None? <==> Succeeds(anyAvailable, retrieval, answer)) &&
      (r.chunks != [] ==> retrieval.Ok? && r.chunks == retrieval.value.chunks && r.sources == retrieval.value.sources) &&
      (r.chunks == [] ==> r.sources == [])
    ensures var r := Decide(anyAvailable, retrieval, fallback, answer);
      (Succeeds(anyAvailable, retrieval, answer) ==>
        r.answer == answer.value && r.chunks == retrieval.value.chunks && r.sources == retrieval.value.sources) &&
      (anyAvailable && retrieval.Ok? && retrieval.value.chunks != [] && !Succeeds(anyAvailable, retrieval, answer) ==>
        r == Response(FailedAnswer, retrieval.value.sources, retrieval.value.chunks, Some(FailedError), None)) &&
      (anyAvailable && retrieval.Ok? && retrieval.value.chunks == [] ==>
        r.answer == (if fallback.Some? && fallback.value != "" then fallback.value else NoDocumentsAnswer)) &&
      (anyAvailable && retrieval.Err? ==> r.error == Some(retrieval.message) && r.answer == ErrorAnswerPrefix + retrieval.message) &&
      (!anyAvailable ==> r == Response(NoLlmAnswer, [], [], Some(NoLlmError), None))
  {
  }

  /** A retrieval that succeeds with no chunks has no sources. */
  lemma NoChunksNoSources(hits: seq<SearchResult>)
    requires WithSources(hits).Ok? && WithSources(hits).value.chunks == []
    ensures WithSources(hits).value.sources == []
  {
    if hits != [] {
      RetrievalShape(hits);
    }
  }

  /** The outcome of the whole pipeline has the shape `DecideShape` states,
      for every behaviour of the vector engine and the backends. */
  lemma ResponseShape(anyAvailable: bool, k: int, engine: int -> Result<QueryAnswer>, fallback: Option<string>, answer: Option<string>)
    ensures var retrieval := RetrievalFor(k, engine);
      var r := Decide(anyAvailable, retrieval, fallback, answer);
      r.answer != "" && (r.chunks == [] ==> r.sources == []) &&
      (r.error.None? && r.note.None? <==> Succeeds(anyAvailable, retrieval, answer))
  {
    var retrieval := RetrievalFor(k, engine);
    if retrieval.Ok? && retrieval.value.chunks == [] {
      NoChunksNoSources(Formatted(engine(OrInt(Some(k), DefaultK))));
    }
    DecideShape(anyAvailable, retrieval, fallback, answer);
  }
}
