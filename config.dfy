/** The process-wide settings (`Config` in src/config.py) as one immutable
    value that is handed to each component, with the validation predicate
    and the list of usable language-model backends. The Ollama liveness
    probe (an HTTP GET of /api/tags) is an input. */
module AppConfig {

  datatype Config = Config(
    geminiApiKey: string,
    ollamaBaseUrl: string,
    ollamaModel: string,
    storageType: string,
    chunkSize: int,
    chunkOverlap: int,
    maxFileSizeMb: int)

  /** The values used when no environment variable overrides them. */
  const Default := Config("", "http://localhost:11434", "llama2", "local", 500, 50, 50)

  const NoLlmError := "No LLM configured. Please set GEMINI_API_KEY or ensure Ollama is running."
  const ChunkSizeError := "CHUNK_SIZE must be positive."
  const ChunkOverlapError := "CHUNK_OVERLAP must be non-negative."
  const MaxFileSizeError := "MAX_FILE_SIZE_MB must be positive."

  function StorageTypeError(storageType: string): string
  {
    "Invalid STORAGE_TYPE: " + storageType + ". Must be 'memory' or 'local'."
  }

  /** The error messages `validate_config` collects, in the order it checks. */
  function ConfigErrors(c: Config, ollamaUp: bool): seq<string>
  {
    (if c.geminiApiKey == "" && !ollamaUp then [NoLlmError] else [])
    + (if c.storageType != "memory" && c.storageType != "local" then [StorageTypeError(c.storageType)] else [])
    + (if c.chunkSize <= 0 then [ChunkSizeError] else [])
    + (if c.chunkOverlap < 0 then [ChunkOverlapError] else [])
    + (if c.maxFileSizeMb <= 0 then [MaxFileSizeError] else [])
  }

  /** `validate_config`: true when no check failed. */
  function ValidateConfig(c: Config, ollamaUp: bool): (ok: bool)
    ensures !ok <==>
      || (c.geminiApiKey == "" && !ollamaUp)
      || (c.storageType != "memory" && c.storageType != "local")
      || c.chunkSize <= 0
      || c.chunkOverlap < 0
      || c.maxFileSizeMb <= 0
  {
    ConfigErrors(c, ollamaUp) == []
  }

  /** `get_available_llms`: "gemini" when a key is set, then "ollama" when the probe succeeds. */
  function AvailableLlms(c: Config, ollamaUp: bool): (r: seq<string>)
    ensures "gemini" in r <==> c.geminiApiKey != ""
    ensures "ollama" in r <==> ollamaUp
    ensures forall name :: name in r ==> name == "gemini" || name == "ollama"
    ensures |r| <= 2 && (|r| == 2 ==> r == ["gemini", "ollama"])
  {
    (if c.geminiApiKey != "" then ["gemini"] else []) + (if ollamaUp then ["ollama"] else [])
  }

  /** With the default numeric and storage settings, validation only depends
      on whether some backend is usable. */
  lemma DefaultsValidIffBackend(key: string, ollamaUp: bool)
    ensures ValidateConfig(Default.(geminiApiKey := key), ollamaUp) <==> (key != "" || ollamaUp)
  {
  }

  /** Validation does not relate the overlap to the chunk size: a validated
      configuration can give the chunker a step `chunkSize - chunkOverlap`
      that is zero, on which the chunker's `range` call raises. */
  lemma ValidationAllowsZeroStep()
    ensures exists c: Config :: ValidateConfig(c, true) && c.chunkSize - c.chunkOverlap == 0
  {
    var c := Default.(chunkOverlap := Default.chunkSize);
    assert ValidateConfig(c, true);
  }
}
