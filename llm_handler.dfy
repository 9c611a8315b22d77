/** The language-model backends and their registry. Each backend builds its
    own prompt and talks to its service; the service's replies and the
    Ollama reachability probe are parameters, so that a backend may come and
    go between two calls. */
module Llm {
  import opened Common
  import opened Text
  import opened AppConfig

  const GeminiName := "gemini"
  const OllamaName := "ollama"

  /** The registry, in the order its dict literal lists the backends. */
  const Registry: seq<string> := [GeminiName, OllamaName]

  const GeminiModel := "gemini-2.0-flash"

  /** The sentence that opens a prompt with context. */
  const Preamble := "You are a helpful assistant that answers questions based on the provided context."

  /** The instruction that closes a prompt with context. */
  const Closing := "Please provide a comprehensive answer based on the context above. If the context doesn't contain relevant information, please say so."

  /** The blank line and instruction that end a prompt with context. */
  const ClosingBreak := "\n\n" + Closing

  /** What a prompt with context holds between the context and the question. */
  const QuestionLabel := "\n\nQuestion: "

  /** The header between the preamble and the context, per backend: Gemini
      leaves a blank line before `Context:`, Ollama does not. */
  const GeminiHeader := "\n\nContext:\n"
  const OllamaHeader := "\nContext:\n"

  /** The prompt template around a non-empty context. */
  function Template(header: string, context: string, question: string): string
  {
    Preamble + header + context + QuestionLabel + question + ClosingBreak
  }

  /** `GeminiHandler._build_prompt`. */
  function GeminiPrompt(context: string, question: string): (r: string)
    ensures context == "" ==> r == question
    ensures context != "" ==>
      var c := |Preamble| + |GeminiHeader|;
      var q := c + |context| + |QuestionLabel|;
      |r| == q + |question| + |ClosingBreak| &&
      r[..|Preamble|] == Preamble && r[c..c + |context|] == context &&
      r[q..q + |question|] == question && r[|r| - |ClosingBreak|..] == ClosingBreak
  {
    TemplateParts(GeminiHeader, context, question);
    if context == "" then question else Template(GeminiHeader, context, question)
  }

  /** `OllamaHandler._build_prompt`. */
  function OllamaPrompt(context: string, question: string): (r: string)
    ensures context == "" ==> r == question
    ensures context != "" ==>
      var c := |Preamble| + |OllamaHeader|;
      var q := c + |context| + |QuestionLabel|;
      |r| == q + |question| + |ClosingBreak| &&
      r[..|Preamble|] == Preamble && r[c..c + |context|] == context &&
      r[q..q + |question|] == question && r[|r| - |ClosingBreak|..] == ClosingBreak
  {
    TemplateParts(OllamaHeader, context, question);
    if context == "" then question else Template(OllamaHeader, context, question)
  }

  /** Six pieces laid end to end: the first, third, fifth and last can be
      read back at their offsets. */
  lemma {:induction false} SixPieces(a: string, b: string, c: string, d: string, e: string, f: string)
    ensures var s := a + b + c + d + e + f;
      var i := |a| + |b|;
      var j := i + |c| + |d|;
      |s| == j + |e| + |f| &&
      s[..|a|] == a && s[i..i + |c|] == c && s[j..j + |e|] == e && s[|s| - |f|..] == f
  {
    var s := a + b + c + d + e + f;
    assert s == a + (b + c + d + e + f);
    assert s == (a + b) + c + (d + e + f);
    assert s == (a + b + c + d) + e + f;
    assert s == (a + b + c + d + e) + f;
  }

  /** The context and the question sit at fixed offsets of a prompt with
      context: the template can be read back. */
  lemma TemplateParts(header: string, context: string, question: string)
    ensures var p := Template(header, context, question);
      var c := |Preamble| + |header|;
      var q := c + |context| + |QuestionLabel|;
      |p| == q + |question| + |ClosingBreak| &&
      p[..|Preamble|] == Preamble &&
      p[c..c + |context|] == context &&
      p[q..q + |question|] == question &&
      p[|p| - |ClosingBreak|..] == ClosingBreak
  {
    SixPieces(Preamble, header, context, QuestionLabel, question, ClosingBreak);
  }

  /** Without context both backends send the question alone; with context
      the two prompts differ only in the one extra newline of Gemini's
      header, so each is the other's template read at a shifted offset. */
  lemma PromptsAgree(context: string, question: string)
    ensures context == "" ==> GeminiPrompt(context, question) == question && OllamaPrompt(context, question) == question
    ensures GeminiHeader == "\n" + OllamaHeader
    ensures context != "" ==>
      |GeminiPrompt(context, question)| == |OllamaPrompt(context, question)| + 1 &&
      GeminiPrompt(context, question) == Template("\n" + OllamaHeader, context, question)
  {
  }

  /** The request sent to Gemini. */
  datatype GeminiRequest = GeminiRequest(apiKey: string, model: string, contents: string)

  /** The request posted to Ollama's `/api/generate`. */
  datatype OllamaRequest = OllamaRequest(url: string, model: string, prompt: string, stream: bool)

  /** An HTTP reply: its status and the JSON body, or the error `.json()`
      raises. */
  datatype HttpReply = HttpReply(status: int, body: Result<Value>)

  /** `GeminiHandler.generate_response`. `reply` is the service: the text of
      its response (`None` when the response has none) or the exception the
      client raised. */
  function GeminiGenerate(apiKey: string, prompt: string, context: string,
                          reply: GeminiRequest -> Result<Option<string>>): (r: Option<string>)
    ensures apiKey == "" ==> r == None
    ensures r.Some? <==>
      (apiKey != "" && reply(GeminiRequest(apiKey, GeminiModel, GeminiPrompt(context, prompt))).Ok? &&
       OrString(reply(GeminiRequest(apiKey, GeminiModel, GeminiPrompt(context, prompt))).value, "") != "")
    ensures r.Some? ==>
      (r.value != "" && reply(GeminiRequest(apiKey, GeminiModel, GeminiPrompt(context, prompt))) == Ok(r))
  {
    if apiKey == "" then None
    else
      match reply(GeminiRequest(apiKey, GeminiModel, GeminiPrompt(context, prompt)))
      case Err(_) => None
      case Ok(text) => if text.Some? && text.value != "" then text else None
  }

  /** What Ollama's answer yields: the stripped `response` field, `""` when
      it is missing, and `None` when the status is not 200 or reading the
      body raises (a body that is no JSON object, a `response` that is no
      string). */
  function OllamaAnswer(reply: Result<HttpReply>): (r: Option<string>)
    ensures r.Some? <==>
      reply.Ok? && reply.value.status == 200 && reply.value.body.Ok? && reply.value.body.value.Dict? &&
      ("response" in reply.value.body.value.fields ==> reply.value.body.value.fields["response"].Str?)
    ensures reply.Ok? && reply.value.status == 200 && reply.value.body.Ok? && reply.value.body.value.Dict? ==>
      var fields := reply.value.body.value.fields;
      ("response" !in fields ==> r == Some("")) &&
      ("response" in fields && fields["response"].Str? ==> r == Some(Strip(fields["response"].s)))
  {
    if reply.Err? || reply.value.status != 200 then None
    else
      match reply.value.body
      case Err(_) => None
      case Ok(body) =>
        if !body.Dict? then None
        else if "response" !in body.fields then Some("")
        else if body.fields["response"].Str? then Some(Strip(body.fields["response"].s))
        else None
  }

  /** `OllamaHandler.generate_response`: `up` is the reachability probe of
      its own availability check, `reply` the service. */
  function OllamaGenerate(baseUrl: string, model: string, prompt: string, context: string, up: bool,
                          reply: OllamaRequest -> Result<HttpReply>): (r: Option<string>)
    ensures !up ==> r == None
    ensures r.Some? ==>
      var answer := reply(OllamaRequest(baseUrl + "/api/generate", model, OllamaPrompt(context, prompt), false));
      up && answer.Ok? && answer.value.status == 200
    ensures up ==>
      r == OllamaAnswer(reply(OllamaRequest(baseUrl + "/api/generate", model, OllamaPrompt(context, prompt), false)))
  {
    if !up then None
    else OllamaAnswer(reply(OllamaRequest(baseUrl + "/api/generate", model, OllamaPrompt(context, prompt), false)))
  }

  /** The services one generation may touch. `upAtCheck` is the Ollama probe
      of the registry's availability check, `upAtCall` the probe the Ollama
      handler repeats before posting. */
  datatype Services = Services(
    upAtCheck: bool,
    upAtCall: bool,
    gemini: GeminiRequest -> Result<Option<string>>,
    ollama: OllamaRequest -> Result<HttpReply>)

  /** The backends, built from the configuration, and the default backend. */
  class LlmManager {
    const geminiKey: string
    const ollamaBaseUrl: string
    const ollamaModel: string
    var defaultHandler: Option<string>

    /** The default backend, when there is one, is registered. */
    predicate Valid()
      reads this
    {
      defaultHandler.Some? ==> defaultHandler.value in Registry
    }

    /** `is_available` of the backend `name`, given the Ollama probe. */
    function Available(name: string, ollamaUp: bool): (r: bool)
      requires name in Registry
    {
      if name == GeminiName then geminiKey != "" else ollamaUp
    }

    /** `__init__`: registers both backends and picks as default the first
        of them, in registry order, that is available. */
    constructor(config: Config, ollamaUp: bool)
      ensures geminiKey == config.geminiApiKey
      ensures ollamaBaseUrl == config.ollamaBaseUrl && ollamaModel == config.ollamaModel
      ensures defaultHandler == (if config.geminiApiKey != "" then Some(GeminiName)
        else if ollamaUp then Some(OllamaName) else None)
      ensures Valid()
    {
      geminiKey := config.geminiApiKey;
      ollamaBaseUrl := config.ollamaBaseUrl;
      ollamaModel := config.ollamaModel;
      defaultHandler := None;
      new;
      var i := 0;
      while i < |Registry|
        invariant 0 <= i <= |Registry|
        invariant defaultHandler == None
        invariant forall j :: 0 <= j < i ==> !Available(Registry[j], ollamaUp)
      {
        if Available(Registry[i], ollamaUp) {
          defaultHandler := Some(Registry[i]);
          assert i == 1 ==> !Available(Registry[0], ollamaUp);
          break;
        }
        i := i + 1;
      }
      assert i == |Registry| ==> !Available(Registry[0], ollamaUp) && !Available(Registry[1], ollamaUp);
    }

    /** `get_available_handlers`: the available backends in registry order. */
    function AvailableHandlers(ollamaUp: bool): (r: seq<string>)
      ensures forall name :: name in r <==> name in Registry && Available(name, ollamaUp)
      ensures |r| <= 2 && (|r| == 2 ==> r == Registry)
    {
      if geminiKey != "" then (if ollamaUp then [GeminiName, OllamaName] else [GeminiName])
      else (if ollamaUp then [OllamaName] else [])
    }

    /** `is_any_available`. */
    function IsAnyAvailable(ollamaUp: bool): (r: bool)
      ensures r <==> geminiKey != "" || ollamaUp
    {
      |AvailableHandlers(ollamaUp)| > 0
    }

    /** The backend `generate_response` would use: the name given when it is
        non-empty, else the default. */
    function Resolve(handlerName: Option<string>): Option<string>
      reads this
    {
      if handlerName.Some? && handlerName.value != "" then handlerName else defaultHandler
    }

    /** The answer of `generate_response` for the backend `Resolve` picks. */
    function Answer(prompt: string, context: string, handlerName: Option<string>, services: Services): Option<string>
      reads this
    {
      var name := Resolve(handlerName);
      if name.None? || name.value == "" || name.value !in Registry then None
      else if !Available(name.value, services.upAtCheck) then None
      else if name.value == GeminiName then GeminiGenerate(geminiKey, prompt, context, services.gemini)
      else OllamaGenerate(ollamaBaseUrl, ollamaModel, prompt, context, services.upAtCall, services.ollama)
    }

    /** `generate_response`: no answer when no backend is named or defaulted,
        when the name is not registered or when the backend is unavailable at
        the time of the call; otherwise the backend's own answer. */
    method GenerateResponse(prompt: string, context: string := "", handlerName: Option<string> := None, services: Services)
      returns (answer: Option<string>)
      ensures answer == Answer(prompt, context, handlerName, services)
      ensures Resolve(handlerName) == Some(GeminiName) && geminiKey != "" ==>
        answer == GeminiGenerate(geminiKey, prompt, context, services.gemini)
      ensures Resolve(handlerName) == Some(OllamaName) && services.upAtCheck ==>
        answer == OllamaGenerate(ollamaBaseUrl, ollamaModel, prompt, context, services.upAtCall, services.ollama)
      ensures answer.Some? ==>
        Resolve(handlerName).Some? && Resolve(handlerName).value in Registry &&
        Available(Resolve(handlerName).value, services.upAtCheck)
    {
      var name := if handlerName.Some? && handlerName.value != "" then handlerName else defaultHandler;
      if name.None? || name.value == "" {
        return None;
      }
      if name.value !in Registry {
        return None;
      }
      if !Available(name.value, services.upAtCheck) {
        return None;
      }
      if name.value == GeminiName {
        answer := GeminiGenerate(geminiKey, prompt, context, services.gemini);
      } else {
        answer := OllamaGenerate(ollamaBaseUrl, ollamaModel, prompt, context, services.upAtCall, services.ollama);
      }
    }

    /** `set_default_handler`: switches the default to a registered backend
        that is available now, and reports whether it did. */
    method SetDefaultHandler(name: string, ollamaUp: bool) returns (ok: bool)
      requires Valid()
      modifies this
      ensures Valid()
      ensures ok <==> name in Registry && Available(name, ollamaUp)
      ensures defaultHandler == if ok then Some(name) else old(defaultHandler)
    {
      if name in Registry && Available(name, ollamaUp) {
        defaultHandler := Some(name);
        return true;
      }
      return false;
    }
  }

  /** `get_available_handlers` lists exactly the available backends, each
      once, in registry order, and `is_any_available` holds exactly when
      one of them is. */
  lemma AvailableHandlersExact(m: LlmManager, ollamaUp: bool)
    ensures forall name :: name in m.AvailableHandlers(ollamaUp) <==> name in Registry && m.Available(name, ollamaUp)
    ensures forall i, j :: 0 <= i < j < |m.AvailableHandlers(ollamaUp)| ==>
      m.AvailableHandlers(ollamaUp)[i] != m.AvailableHandlers(ollamaUp)[j]
    ensures |m.AvailableHandlers(ollamaUp)| == 2 ==> m.AvailableHandlers(ollamaUp) == Registry
    ensures m.IsAnyAvailable(ollamaUp) <==> m.geminiKey != "" || ollamaUp
  {
  }

  /** The registry agrees with the configuration's list of backends. */
  lemma AvailableHandlersMatchConfig(m: LlmManager, config: Config, ollamaUp: bool)
    requires m.geminiKey == config.geminiApiKey
    ensures m.AvailableHandlers(ollamaUp) == AvailableLlms(config, ollamaUp)
  {
  }

  /** A generated answer comes from the backend `Resolve` picks, which is
      registered and was available when checked; an unnamed call without a
      default gives no answer. */
  lemma AnswerNeedsAvailableBackend(m: LlmManager, prompt: string, context: string, handlerName: Option<string>, services: Services)
    ensures m.Answer(prompt, context, handlerName, services).Some? ==>
      m.Resolve(handlerName).Some? && m.Resolve(handlerName).value in Registry &&
      m.Available(m.Resolve(handlerName).value, services.upAtCheck) &&
      (m.Resolve(handlerName).value == OllamaName ==> services.upAtCall)
    ensures m.Resolve(handlerName).None? ==> m.Answer(prompt, context, handlerName, services) == None
  {
  }

  /** When the backend `Resolve` picks is registered and available, the
      answer is that backend's own: Gemini's for a set key, Ollama's for a
      successful probe; a name that is not registered gives no answer. */
  lemma AnswerFromResolvedBackend(m: LlmManager, prompt: string, context: string, handlerName: Option<string>, services: Services)
    ensures m.Resolve(handlerName) == Some(GeminiName) && m.geminiKey != "" ==>
      m.Answer(prompt, context, handlerName, services) == GeminiGenerate(m.geminiKey, prompt, context, services.gemini)
    ensures m.Resolve(handlerName) == Some(OllamaName) && services.upAtCheck ==>
      m.Answer(prompt, context, handlerName, services) ==
        OllamaGenerate(m.ollamaBaseUrl, m.ollamaModel, prompt, context, services.upAtCall, services.ollama)
    ensures m.Resolve(handlerName).Some? && m.Resolve(handlerName).value !in Registry ==>
      m.Answer(prompt, context, handlerName, services) == None
  {
  }
}
