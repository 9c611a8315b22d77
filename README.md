# PDF question answering: a Dafny model of the retrieval-augmented core

The system answers questions about uploaded PDF documents. It works in three stages:

- **Ingestion.** PDFs are read page by page. The text is cleaned and cut into overlapping chunks, and the chunks are stored in a ChromaDB collection.
- **Answering.** To answer a question, the system retrieves the nearest chunks and builds a prompt from them. A language-model backend (Gemini or a local Ollama server) answers the prompt, and a successful exchange is recorded in a JSON chat history.
- **Catalogue.** A second JSON file keeps metadata about each document.

This project models that core in Dafny, one module per source file:

| module | source | form |
|---|---|---|
| `AppConfig` | `src/config.py` | the settings as one `Config` value; validation and the list of usable backends are functions |
| `Text` | (helpers) | Python's `str.isspace`, `strip`, `split`, `join`, `re.sub(' +', ' ')` and `str(n)`, with their algebra |
| `TextChunking` | `src/processing/text_chunker.py` | `TextChunker` class. Its sliding-window loop is proved against a chunking specification |
| `VectorStorage` | `src/storage/vector_store.py` | `VectorStore` class. The collection is a sequence of records that the methods reassign |
| `Retrieval` | `src/rag/retriever.py` | `Retriever` class. The hit-formatting loop is proved against a specification function |
| `Llm` | `src/models/llm_handler.py` | prompt builders, the two backends as functions of their service, and the `LlmManager` registry with its mutable default |
| `DocumentStorage` | `src/storage/document_store.py` | `DocumentStore` class. Each JSON file is a field holding the file's value |
| `Generation` | `src/rag/generator.py` | `RagGenerator` class; the whole pipeline is specified by `Reply` and `ChatEntry` |
| `PdfProcessing` | `src/processing/pdf_processor.py` | page extraction, text cleaning, file-name sanitizing and the free-name search loop |

Whatever lies outside the program becomes a parameter, so every property holds for every behaviour of it:

- the vector engine's answer to a query, for a given number of results;
- the uuids it is given;
- `json.dumps`: the JSON text of a value, or none where it raises `TypeError`;
- the Gemini and Ollama replies, as functions of the request actually sent;
- each Ollama reachability probe;
- the PDF reader's pages, or its exception;
- the names already in the upload directory;
- the current time;
- whether each file write succeeds.

An `Err`/`None` outcome stands for the exception path that the source catches or lets escape.

## Model

| member | source | states |
|---|---|---|
| AppConfig.ValidateConfig | src/config.py:59-88 | validation fails exactly when no backend is usable (no Gemini key and Ollama down), the storage type is neither `memory` nor `local`, the chunk size is not positive, the overlap is negative, or the file-size limit is not positive |
| AppConfig.AvailableLlms | src/config.py:100-111 | `gemini` is listed iff a key is set, `ollama` iff the probe succeeds, no other name is ever listed, and both come in that order |
| AppConfig.DefaultsValidIffBackend | src/config.py:20-31 | with the default numeric and storage settings (500, 50, 50, `local`), validation holds exactly when some backend is usable |
| AppConfig.ValidationAllowsZeroStep | src/config.py:59-88 | validation never relates overlap to chunk size: a configuration that passes can give the chunker a step of zero |
| Text.StripEmptyIffBlank | src/processing/text_chunker.py:17-25 | `strip()` is empty exactly for all-whitespace text, and otherwise neither starts nor ends with whitespace |
| Text.JoinSplit | src/processing/pdf_processor.py:97-106 | joining the pieces of `split('\n')` with `'\n'` gives the text back |
| Text.SplitJoin | src/processing/pdf_processor.py:97-106 | splitting a join of newline-free lines gives the lines back |
| Text.CollapseStable | src/processing/pdf_processor.py:110 | `re.sub(' +', ' ')` leaves text without a run of spaces unchanged |
| Text.CollapseJoinLines | src/processing/pdf_processor.py:106-110 | collapsing spaces in the joined text equals collapsing each line, as runs never cross a newline |
| Text.NatToStringInjective | src/processing/pdf_processor.py:128 | different counters print as different decimal strings |
| TextChunking.TextChunker.constructor | src/processing/text_chunker.py:11-13 | a missing or zero size or overlap falls back to the configured value |
| TextChunking.TextChunker.ChunkText | src/processing/text_chunker.py:15-46 | the sliding-window loop yields exactly the chunking specification `ChunkSpec` |
| TextChunking.TextChunker.ChunkDocument | src/processing/text_chunker.py:48-56 | chunking with the document's name, path and length as base metadata |
| TextChunking.ChunkSpecIsKeptWindows | src/processing/text_chunker.py:28-43 | chunk `k` is the stripped window at the `k`-th kept start, numbered `k`; its window length is `min(size, remaining)`, between 1 and the size |
| TextChunking.BlankIffNoChunks | src/processing/text_chunker.py:17-25 | with a positive step, there are no chunks exactly when the text is empty or whitespace |
| TextChunking.ChunkStartsOrdered | src/processing/text_chunker.py:28-43 | starts are multiples of the step, strictly increasing and inside the stripped text; every chunk text is non-empty |
| TextChunking.ChunksCoverText | src/processing/text_chunker.py:28-43 | with `0 <= overlap < size`, every non-whitespace character lies in some chunk's span |
| TextChunking.BaseMetadataCopied | src/processing/text_chunker.py:32-38 | every chunk carries the caller's metadata plus exactly the four positional keys, which overwrite the caller's |
| TextChunking.ChunkMetadataKeys | src/processing/text_chunker.py:32-38 | writing the positional keys adds exactly those keys and keeps every other value |
| TextChunking.DocumentMetadataInEveryChunk | src/processing/text_chunker.py:48-56 | every chunk of a document names the document and its path (the name when no path is given) and the length of the unstripped text |
| VectorStorage.FlattenMetadata | src/storage/vector_store.py:184-197 | fails exactly when `json.dumps` raises on some list or dict value; otherwise same keys, scalars kept, lists and dicts as their JSON text, anything else as its `str()`, every value a scalar |
| VectorStorage.FlattenIdempotent | src/storage/vector_store.py:184-197 | flattening a successfully flattened dict again succeeds and changes nothing |
| VectorStorage.FlattenKeepsFlat | src/storage/vector_store.py:184-197 | a dict of scalars always flattens, to itself |
| VectorStorage.VectorStore.constructor | src/storage/vector_store.py:15-44 | the storage type falls back to the configured one; memory starts empty, otherwise the persisted collection is opened |
| VectorStorage.VectorStore.AddDocuments | src/storage/vector_store.py:46-84 | succeeds iff there are chunks, all have text, all metadata can be JSON-encoded, and the engine accepts; then every chunk is appended in order with its fresh id and flattened metadata, otherwise nothing changes; ids stay distinct |
| VectorStorage.AppendFreshDistinct | src/storage/vector_store.py:58-77 | appending records under fresh, pairwise distinct uuids keeps every id unique |
| VectorStorage.VectorStore.Search | src/storage/vector_store.py:86-114 | engine error or a missing id, metadata or distance gives `[]`; otherwise one result per hit, in engine order |
| VectorStorage.VectorStore.DeleteByDocument | src/storage/vector_store.py:116-137 | reports success iff the lookup succeeds and either finds nothing or the delete succeeds; exactly the found ids are removed |
| VectorStorage.DeleteRemovesDocument | src/storage/vector_store.py:116-137 | when the lookup returned all of a document's records (at most 10000), deletion keeps exactly the other records, in order |
| VectorStorage.WithoutIdsDistinct | src/storage/vector_store.py:131-133 | deletion keeps ids distinct and only keeps records that were there and are not deleted |
| VectorStorage.OfDocumentIn | src/storage/vector_store.py:119-124 | the records the `where` lookup selects are exactly the collection's records of that document |
| VectorStorage.VectorStore.GetCollectionInfo | src/storage/vector_store.py:139-166 | total is the record count; the names are those of the sample (none when empty); the unique count equals the number of names and is at most `min(5, count)`; a sample error is reported |
| VectorStorage.DocumentNamesBound | src/storage/vector_store.py:152-156 | a sample of `n` records names at most `n` documents |
| VectorStorage.VectorStore.ClearCollection | src/storage/vector_store.py:168-182 | succeeds iff both delete and re-create succeed; a successful delete leaves the collection empty |
| Retrieval.GetOr | src/rag/retriever.py:50-51 | `dict.get(key, default)`: the value under the key, or the default when absent |
| Retrieval.Retriever.constructor | src/rag/retriever.py:12-14 | the retriever searches the store it is given |
| Retrieval.Retriever.Retrieve | src/rag/retriever.py:16-32 | asks for `k or 5` results and returns the store's formatted hits unchanged |
| Retrieval.Retriever.RetrieveWithSources | src/rag/retriever.py:34-68 | the loop yields exactly the retrieval specification `WithSources` of the hits, including the exception it raises |
| Retrieval.ChunksUpToAgree | src/rag/retriever.py:49-59 | one chunk entry per hit, in rank order, carrying the hit's text and distance, its `document_name` or `Unknown`, and its `chunk_index` or 0 |
| Retrieval.ChunksUpToFails | src/rag/retriever.py:49-59 | the loop raises exactly when some hit has no metadata or an unhashable `document_name` |
| Retrieval.ErrorAborts | src/rag/retriever.py:49-59 | the first raising hit determines the exception of the whole loop |
| Retrieval.SourcesOfDistinct | src/rag/retriever.py:46-52 | the sources are exactly the chunks' sources, each listed once |
| Retrieval.RetrievalShape | src/rag/retriever.py:38-68 | on success: as many chunks as hits with their texts and distances, distinct sources of those chunks, context = texts joined by a blank line; no hits give the empty answer |
| Llm.GeminiPrompt | src/models/llm_handler.py:81-93 | without context the bare question; with context the preamble, the `Context:` header, the context, the question and the closing instruction, each readable at its offset |
| Llm.OllamaPrompt | src/models/llm_handler.py:153-164 | the same shape with Ollama's header, which has no blank line before `Context:` |
| Llm.TemplateParts | src/models/llm_handler.py:81-93 | a prompt with context starts with the preamble and ends with the closing instruction; the context and the question can be read back at fixed offsets |
| Llm.PromptsAgree | src/models/llm_handler.py:153-164 | without context both backends send the bare question; with context the prompts differ only by Gemini's extra newline before `Context:` |
| Llm.GeminiGenerate | src/models/llm_handler.py:36-75 | no key gives no answer; an answer exists iff the service returns non-empty text for the prompt built from the context, and is that text |
| Llm.OllamaAnswer | src/models/llm_handler.py:124-132 | an answer exactly when the status is 200, the body is a JSON object and its `response` field, if present, is a string; otherwise (a failed request, another status, a body `.json()` cannot read, a non-object body, a non-string `response`) none; the answer is the stripped `response`, or `""` when the field is absent |
| Llm.OllamaGenerate | src/models/llm_handler.py:102-132 | an unreachable server gives no answer; a reachable one gives what `OllamaAnswer` reads from the reply to the prompt posted at `/api/generate` (the stripped `response`, `""` when absent, none unless status 200) |
| Llm.LlmManager.constructor | src/models/llm_handler.py:169-186 | the default is Gemini when a key is set, else Ollama when reachable, else none; the default is always registered |
| Llm.LlmManager.GenerateResponse | src/models/llm_handler.py:188-206 | a registered, available Gemini (key set) or Ollama (probe up) backend picked by name or default gives exactly its own answer; an answer only ever comes from a registered backend that was available; the context defaults to `""` and the name to none |
| Llm.AnswerFromResolvedBackend | src/models/llm_handler.py:188-206 | the resolved backend's own answer is returned when it is registered and available; an unregistered name gives none |
| Llm.AnswerNeedsAvailableBackend | src/models/llm_handler.py:188-206 | any answer comes from a registered backend that was available when checked (and, for Ollama, reachable again when posting); no name and no default give none |
| Llm.LlmManager.AvailableHandlers | src/models/llm_handler.py:208-210 | exactly the registered backends available now, at most the two, in registry order |
| Llm.LlmManager.IsAnyAvailable | src/models/llm_handler.py:212-214 | some backend is available iff a Gemini key is set or Ollama answers the probe |
| Llm.AvailableHandlersExact | src/models/llm_handler.py:208-214 | exactly the available backends, each once, in registry order; some backend is available iff a key is set or Ollama is up |
| Llm.AvailableHandlersMatchConfig | src/models/llm_handler.py:208-210 | the registry's list agrees with the configuration's `get_available_llms` |
| Llm.LlmManager.SetDefaultHandler | src/models/llm_handler.py:216-222 | switches the default iff the name is registered and available now, and reports that; otherwise the default stays |
| DocumentStorage.DocumentStore.constructor | src/storage/document_store.py:14-16 | the store starts from the current contents of the catalogue and chat-history files |
| DocumentStorage.DocumentStore.LoadDocuments | src/storage/document_store.py:41-51 | the stored catalogue, or `{}` when the file is missing or unreadable |
| DocumentStorage.DocumentStore.SaveDocumentMetadata | src/storage/document_store.py:18-39 | succeeds iff the metadata has a string `name` and the write succeeds; then the stamped dict is stored under that name, otherwise nothing changes |
| DocumentStorage.UpsertKeepsOthers | src/storage/document_store.py:24-28 | the new entry carries `added_at`, every other entry is kept, and at most one entry is added (none when replacing) |
| DocumentStorage.DocumentStore.RemoveDocument | src/storage/document_store.py:53-72 | succeeds iff the name was catalogued and the write succeeds; then exactly that entry is gone |
| DocumentStorage.DocumentStore.SaveChatMessage | src/storage/document_store.py:74-98 | succeeds iff the write succeeds; then the stamped message is appended and only the newest 1000 are kept |
| DocumentStorage.AppendedKeepsNewest | src/storage/document_store.py:80-88 | the history after appending is the newest `min(len+1, 1000)` messages in order, ending with the stamped new one |
| DocumentStorage.AppendedBounded | src/storage/document_store.py:86-88 | the history never exceeds 1000 messages, and an append to a shorter history drops nothing |
| DocumentStorage.DocumentStore.LoadChatHistory | src/storage/document_store.py:100-110 | the stored history, or `[]` when the file is missing or unreadable |
| DocumentStorage.DocumentStore.ClearChatHistory | src/storage/document_store.py:112-123 | when the write succeeds the history is empty; the catalogue is untouched |
| DocumentStorage.DocumentStore.GetRecentChatHistory | src/storage/document_store.py:125-133 | Python's `history[-limit:]` of the stored history, with `limit` defaulting to 10 |
| DocumentStorage.RecentIsSuffix | src/storage/document_store.py:125-133 | the result is a suffix: the newest `min(limit, len)` messages for a positive limit, everything for 0, all but the `-limit` oldest for a negative one |
| Generation.RagGenerator.constructor | src/rag/generator.py:13-16 | the registry is built from the configuration: its Gemini key, Ollama URL and model are the configured ones, and its default backend is Gemini when a key is set, else Ollama when the probe succeeds, else none; the retriever wraps the given store, and the document store holds the given files |
| Generation.RagGenerator.GenerateResponse | src/rag/generator.py:18-80 | the response is the pipeline's specified reply; the chat history gains the interaction record exactly on success with a successful write; the catalogue is untouched |
| Generation.DecideShape | src/rag/generator.py:18-80 | every answer is non-empty; `error` marks exactly the no-backend, exception and failed-generation outcomes; `note` marks exactly the no-documents outcome; sources and chunks only come from a successful retrieval; success answers with the backend's text and the retrieved chunks and sources, a failed generation still returns them with the fixed failure text, no documents gives the backend's context-free answer or the fixed text |
| Generation.ResponseShape | src/rag/generator.py:18-80 | for every engine and backend behaviour, a response without `error` and `note` is exactly a success, and no chunks means no sources |
| Generation.NoChunksNoSources | src/rag/retriever.py:38-68 | a successful retrieval with no chunks has no sources |
| Generation.RagGenerator.SaveChatInteraction | src/rag/generator.py:82-96 | a successful write appends the interaction record (query, answer, sources, chunk count) to the history |
| Generation.RagGenerator.AvailableLlms | src/rag/generator.py:98-100 | exactly the available backends, in registry order |
| Generation.RagGenerator.SetDefaultLlm | src/rag/generator.py:102-104 | switches the default iff the backend is registered and available |
| PdfProcessing.PdfProcessor.constructor | src/processing/pdf_processor.py:14-15 | the size limit is the configured megabytes in bytes |
| PdfProcessing.PdfProcessor.ExtractTextFromFile | src/processing/pdf_processor.py:17-35 | no text for a missing file or one over the limit; otherwise, a file exactly at the limit included, the text of its pages |
| PdfProcessing.PdfProcessor.ExtractTextFromUploadedFile | src/processing/pdf_processor.py:37-50 | no text for an upload over the limit; otherwise, an upload exactly at the limit included, the text of its pages |
| PdfProcessing.PdfProcessor.ExtractTextFromStream | src/processing/pdf_processor.py:52-89 | the loop yields exactly the page specification `FromPages` |
| PdfProcessing.KeptPagesExact | src/processing/pdf_processor.py:63-73 | the kept pages are exactly the extracted, non-blank pages in page order; a failing page is skipped and stops nothing |
| PdfProcessing.FromPagesOutcome | src/processing/pdf_processor.py:52-89 | no text iff the reader failed or no page gave text; any text is non-empty and already clean |
| PdfProcessing.PdfProcessor.CleanText | src/processing/pdf_processor.py:91-112 | the loop yields exactly the cleaning specification `Cleaned` |
| PdfProcessing.CleanedShape | src/processing/pdf_processor.py:91-112 | the cleaned text is empty, or consists of the input's non-blank lines in order, each stripped with its space runs collapsed |
| PdfProcessing.CleanedIdempotent | src/processing/pdf_processor.py:91-112 | cleaning a cleaned text changes nothing |
| PdfProcessing.CleanedNonEmpty | src/processing/pdf_processor.py:91-112 | a text with a non-whitespace character never cleans to empty |
| PdfProcessing.SanitizeShape | src/processing/pdf_processor.py:143-154 | only allowed characters remain, each disallowed one replaced by `_` in place; the name ends in `.pdf` in any case, with `.pdf` appended iff it did not; sanitizing is idempotent |
| PdfProcessing.CandidateSuffix | src/processing/pdf_processor.py:126-128 | each alternative `stem_n.suffix` keeps the sanitized name's suffix, so later alternatives follow the same pattern |
| PdfProcessing.CandidateInjective | src/processing/pdf_processor.py:128 | different counters give different alternative names |
| PdfProcessing.AttemptsDistinct | src/processing/pdf_processor.py:121-129 | all names the loop tries are pairwise distinct, so the loop ends |
| PdfProcessing.FirstFreeAt | src/processing/pdf_processor.py:125-129 | an attempt that is free after every earlier attempt was taken is the first free name |
| PdfProcessing.PdfProcessor.SaveUploadedFile | src/processing/pdf_processor.py:114-141 | saves iff the write succeeds, under the first free name in the sequence sanitized name, `stem_1.suffix`, `stem_2.suffix`, …; a missing filename (but not an empty one) falls back to the upload's name |

## Left out

- The ChromaDB engine is not modelled. Its ranking, its `where` filter and the query text only appear as the answer passed in, and uuid generation appears as fresh ids passed in.
- LLM replies are not modelled. They appear as functions of the request.
- Ollama probes appear as booleans: one per availability check and one per call, so a server may go down in between.
- Timestamps and `json.dumps` are parameters, and so is the PDF reader (`PyPDF2`): its pages or its exception.
- Client initialization is not modelled: the `_initialize_client` exceptions and persistent storage on disk (only its loaded content is a parameter).
- `Retrieval.Retriever.constructor` takes the store it is given; Python's `vector_store or VectorStore()` fallback, which builds a fresh store from the configuration when none is passed, is not modelled.
- `DocumentStorage.DocumentStore.constructor` takes the two files' contents rather than their paths under the chat-history directory.
- Partial writes are not modelled. Each file write succeeds or fails as a whole.
- JSON files whose top level has another shape are not modelled. An unreadable file is loaded as empty.
- Logging, console output and the Streamlit UI are not part of this model.
- `create_directories`, `OllamaHandler.get_available_models` and `PDFProcessor.get_file_info` only touch the file system or the network, and are not part of this model.
- Floats are modelled as mathematical reals.
- `PdfProcessing.Sanitize`: Python's `\w` also matches non-ASCII letters and digits; the model keeps only ASCII ones, and `lower()` is applied to ASCII only.
- `TextChunking.TextChunker.ChunkText` requires a positive size and a non-zero step. A zero step makes Python's `range` raise, which the model does not model. A negative size would use Python's negative slice bounds.
- `TextChunking.Chunk` keeps a chunk's start and window length rather than a Python dict. `MetadataDict` rebuilds the dict.
- `Retrieval.SourcesOf` lists sources in first-appearance order, where Python's `list(set(...))` has no fixed order. Only membership and uniqueness are stated about them.
- `Retrieval.SourcesOf` does not model Python's set identification of `1`, `1.0` and `True`.
- `Retrieval.Retriever.Retrieve`: the `except` branch of `retrieve` cannot be reached, because `search` already catches every engine error, so it is not modelled.
- `DocumentStorage.DocumentStore.SaveDocumentMetadata` treats a `name` that is not a string as a failure. For a hashable `name` (a number, a boolean, `None`) Python instead stores the entry under the name's JSON key; an unhashable list or dict `name` raises `TypeError` and a missing `name` raises `KeyError`, both caught and reported as a failure, as in the model.
- `DocumentStorage.DocumentStore.SaveChatMessage`: the caller's dict gains `timestamp` in place in Python. The model returns a stamped copy, and the same holds for `added_at`.
- `VectorStorage.VectorStore.ClearCollection` leaves the collection empty after a failed re-create. Python's handle would then refer to a deleted collection.
- `VectorStorage.VectorStore.GetCollectionInfo` requires metadata dicts in the sample. A `None` entry would raise in Python.
- `VectorStorage.VectorStore.GetCollectionInfo` counts document names as distinct values, so `1`, `1.0` and `True` count as three names where Python's set counts one.
- `VectorStorage.ChunkIn` uses a missing `metadata` to mean the key is absent, so it cannot express a `"metadata"` key present with the value `None`; in Python that value makes `_flatten_metadata` raise and `add_documents` return `False`.
- `Llm.GeminiGenerate`: the handler's unused `base_url` attribute is not modelled.
- `Generation.RagGenerator.GenerateResponse`: `k` defaults to 5 and `llmName` to none as in Python, but the environment inputs after them (engine, services, time, write outcome) must be passed, so a call that leaves out `k` names the later arguments.
