/** The embedding adapters: a factory that picks one of seven adapters from
    a format tag, and the two adapters that talk to an HTTP endpoint
    themselves (ML Studio and DashScope). The other five wrap vendor SDKs and
    are carried as the arguments they are built from. The HTTP transport is
    a function from request to response. */
module EmbeddingAdapters {
  import opened Base
  import opened Text
  import opened Json

  /** The state an HTTP adapter's constructor sets up and never changes. */
  datatype RestAdapter = RestAdapter(apiKey: string, url: string, modelName: string,
                                     headers: map<string, string>)

  datatype Adapter =
    | OpenAIAdapter(apiKey: string, baseUrl: string, modelName: string)
    | AzureOpenAIAdapter(apiKey: string, baseUrl: string, modelName: string)
    /** Built without the API key. */
    | OllamaAdapter(modelName: string, baseUrl: string)
    | MLStudioAdapter(rest: RestAdapter)
    /** Configures the SDK with the key and keeps the model name; the base URL is dropped. */
    | GeminiAdapter(apiKey: string, modelName: string)
    | SiliconFlowAdapter(apiKey: string, baseUrl: string, modelName: string)
    | DashScopeAdapter(rest: RestAdapter)

  // ---------------------------------------------------------------------------
  // The factory
  // ---------------------------------------------------------------------------

  /** `interface_format.strip().lower()` */
  function NormalizeFormat(format: string): string {
    Lower(Strip(format))
  }

  /** Normalising a normalised tag changes nothing. */
  lemma NormalizeFormatIdempotent(format: string)
    ensures NormalizeFormat(NormalizeFormat(format)) == NormalizeFormat(format)
  {
    var t := Strip(format);
    StripLowerCommute(Lower(t));
    assert Strip(Lower(Lower(t))) == Lower(Strip(Lower(t)));
    StripLowerCommute(t);
    StripIdempotent(format);
    LowerIdempotent(t);
  }

  const KnownFormats: set<string> :=
    {"openai", "azure openai", "ollama", "ml studio", "gemini", "siliconflow", "dashscope"}

  /** The normalised tag each variant is built for. */
  function FormatTag(a: Adapter): (tag: string)
    ensures tag in KnownFormats
  {
    match a
    case OpenAIAdapter(_, _, _) => "openai"
    case AzureOpenAIAdapter(_, _, _) => "azure openai"
    case OllamaAdapter(_, _) => "ollama"
    case MLStudioAdapter(_) => "ml studio"
    case GeminiAdapter(_, _) => "gemini"
    case SiliconFlowAdapter(_, _, _) => "siliconflow"
    case DashScopeAdapter(_) => "dashscope"
  }

  /** The Authorization and Content-Type headers both HTTP adapters send. */
  function BearerHeaders(apiKey: string): (h: map<string, string>)
    ensures h.Keys == {"Authorization", "Content-Type"}
    ensures h["Authorization"] == "Bearer " + apiKey && h["Content-Type"] == "application/json"
  {
    map["Authorization" := "Bearer " + apiKey, "Content-Type" := "application/json"]
  }

  /** An HTTP adapter posting to `base_url.rstrip('/') + suffix`. */
  function NewRestAdapter(apiKey: string, baseUrl: string, modelName: string, suffix: string): (r: RestAdapter)
    ensures r.apiKey == apiKey && r.modelName == modelName && r.headers == BearerHeaders(apiKey)
    ensures exists n :: 0 <= n <= |baseUrl| && r.url == baseUrl[..n] + suffix
                        && (n == 0 || baseUrl[n - 1] != '/')
                        && forall i :: n <= i < |baseUrl| ==> baseUrl[i] == '/'
  {
    var stem := RStripChar(baseUrl, '/');
    assert stem == baseUrl[..|stem|];
    RestAdapter(apiKey, stem + suffix, modelName, BearerHeaders(apiKey))
  }

  /** MLStudioEmbeddingAdapter.__init__ */
  function NewMLStudioAdapter(apiKey: string, baseUrl: string, modelName: string): RestAdapter {
    NewRestAdapter(apiKey, baseUrl, modelName, "/v1/embeddings")
  }

  /** DashScopeEmbeddingAdapter.__init__ */
  function NewDashScopeAdapter(apiKey: string, baseUrl: string, modelName: string): RestAdapter {
    NewRestAdapter(apiKey, baseUrl, modelName, "/embeddings")
  }

  /** A trailing '/' on the base URL makes no difference to either endpoint. */
  lemma EndpointIgnoresTrailingSlash(apiKey: string, baseUrl: string, modelName: string)
    ensures NewMLStudioAdapter(apiKey, baseUrl + "/", modelName) == NewMLStudioAdapter(apiKey, baseUrl, modelName)
    ensures NewDashScopeAdapter(apiKey, baseUrl + "/", modelName) == NewDashScopeAdapter(apiKey, baseUrl, modelName)
  {
    RStripCharAppend(baseUrl, '/');
  }

  /** The adapter create_embedding_adapter builds for a normalised tag, if any. */
  function AdapterFor(fmt: string, apiKey: string, baseUrl: string, modelName: string): (r: Option<Adapter>)
    ensures r.Some? <==> fmt in KnownFormats
    ensures r.Some? ==> FormatTag(r.value) == fmt
  {
    if fmt == "openai" then Some(OpenAIAdapter(apiKey, baseUrl, modelName))
    else if fmt == "azure openai" then Some(AzureOpenAIAdapter(apiKey, baseUrl, modelName))
    else if fmt == "ollama" then Some(OllamaAdapter(modelName, baseUrl))
    else if fmt == "ml studio" then Some(MLStudioAdapter(NewMLStudioAdapter(apiKey, baseUrl, modelName)))
    else if fmt == "gemini" then Some(GeminiAdapter(apiKey, modelName))
    else if fmt == "siliconflow" then Some(SiliconFlowAdapter(apiKey, baseUrl, modelName))
    else if fmt == "dashscope" then Some(DashScopeAdapter(NewDashScopeAdapter(apiKey, baseUrl, modelName)))
    else None
  }

  /** create_embedding_adapter */
  function CreateEmbeddingAdapter(format: string, apiKey: string, baseUrl: string, modelName: string): (r: Result<Adapter>)
    ensures r.Ok? <==> NormalizeFormat(format) in KnownFormats
    ensures r.Ok? ==> FormatTag(r.value) == NormalizeFormat(format)
    ensures r.Err? ==> r.error == UnknownInterfaceFormat(format)
  {
    match AdapterFor(NormalizeFormat(format), apiKey, baseUrl, modelName)
    case Some(a) => Ok(a)
    case None => Err(UnknownInterfaceFormat(format))
  }

  /** Padding or capitalising a tag picks the same adapter as its normal form. */
  lemma FactoryUsesNormalForm(format: string, apiKey: string, baseUrl: string, modelName: string)
    requires NormalizeFormat(format) in KnownFormats
    ensures CreateEmbeddingAdapter(format, apiKey, baseUrl, modelName)
         == CreateEmbeddingAdapter(NormalizeFormat(format), apiKey, baseUrl, modelName)
  {
    NormalizeFormatIdempotent(format);
  }

  /** The Ollama adapter does not depend on the API key. */
  lemma OllamaIgnoresKey(format: string, key1: string, key2: string, baseUrl: string, modelName: string)
    requires NormalizeFormat(format) == "ollama"
    ensures CreateEmbeddingAdapter(format, key1, baseUrl, modelName)
         == CreateEmbeddingAdapter(format, key2, baseUrl, modelName)
         == Ok(OllamaAdapter(modelName, baseUrl))
  {
  }

  // ---------------------------------------------------------------------------
  // The HTTP adapters
  // ---------------------------------------------------------------------------

  datatype Request = Request(url: string, payload: Obj, headers: map<string, string>)

  /** What `requests.post` yields: a connection-level failure, or a status
      code and a body that does or does not parse as JSON. */
  datatype Response = TransportError | Reply(status: int, body: Option<Value>)

  /** Errors requests raises as RequestException: transport failures,
      raise_for_status on a 4xx/5xx status, and response.json() on a body
      that is not JSON. */
  predicate RequestFails(resp: Response) {
    resp.TransportError? || 400 <= resp.status < 600 || resp.body.None?
  }

  /** `data['data'][0]['embedding']` when every step finds what it looks for. */
  function EmbeddingAt(data: Value): Option<Value> {
    if data.Obj? && "data" in data.fields && data.fields["data"].List?
       && data.fields["data"].items != [] && data.fields["data"].items[0].Obj?
       && "embedding" in data.fields["data"].items[0].fields
    then Some(data.fields["data"].items[0].fields["embedding"])
    else None
  }

  /** The subscript chain as Python evaluates it. KeyError and IndexError
      are caught and give `[]`; a TypeError (subscripting a value of the
      wrong kind) escapes to the caller. A dict indexed with 0 has no such
      key, since JSON keys are str. */
  function Extract(data: Value): (r: Result<Value>)
    ensures EmbeddingAt(data).Some? ==> r == Ok(EmbeddingAt(data).value)
    ensures r.Ok? && EmbeddingAt(data).None? ==> r.value == List([])
  {
    match data
    case Obj(top) =>
      if "data" !in top then Ok(List([]))
      else (
        match top["data"]
        case List(items) =>
          if items == [] then Ok(List([]))
          else (
            match items[0]
            case Obj(entry) => Ok(if "embedding" in entry then entry["embedding"] else List([]))
            case _ => Err(WrongKind("data[0]")))
        case Obj(_) => Ok(List([]))
        case Str(s) => if s == "" then Ok(List([])) else Err(WrongKind("data[0]"))
        case _ => Err(WrongKind("data")))
    case _ => Err(WrongKind("response"))
  }

  /** The request `_embed_single` sends for one text. */
  function EmbedRequest(a: RestAdapter, text: string): Request {
    Request(a.url, map["model" := Str(a.modelName), "input" := Str(text)], a.headers)
  }

  /** `_embed_single`: the embedding on success, `[]` when the request fails
      or the reply lacks a key or an index. */
  function EmbedSingle(a: RestAdapter, text: string, post: Request -> Response): (r: Result<Value>)
    ensures RequestFails(post(EmbedRequest(a, text))) ==> r == Ok(List([]))
    ensures !RequestFails(post(EmbedRequest(a, text))) ==> r == Extract(post(EmbedRequest(a, text)).body.value)
  {
    var resp := post(EmbedRequest(a, text));
    if RequestFails(resp) then Ok(List([])) else Extract(resp.body.value)
  }

  /** `embed_query` */
  function EmbedQuery(a: RestAdapter, text: string, post: Request -> Response): Result<Value> {
    EmbedSingle(a, text, post)
  }

  /** `embed_documents`: one `_embed_single` per text, in order; an
      exception from any of them escapes. */
  function EmbedDocuments(a: RestAdapter, texts: seq<string>, post: Request -> Response): (r: Result<seq<Value>>)
    ensures r.Ok? <==> forall i :: 0 <= i < |texts| ==> EmbedSingle(a, texts[i], post).Ok?
    ensures r.Ok? ==> |r.value| == |texts|
    ensures r.Ok? ==> forall i :: 0 <= i < |texts| ==> r.value[i] == EmbedSingle(a, texts[i], post).value
  {
    if texts == [] then Ok([])
    else match EmbedSingle(a, texts[0], post)
      case Err(e) => Err(e)
      case Ok(v) =>
        match EmbedDocuments(a, texts[1..], post)
        case Err(e) =>
          assert forall i :: 0 < i < |texts| ==> texts[1..][i - 1] == texts[i];
          Err(e)
        case Ok(vs) =>
          assert forall i :: 0 < i < |texts| ==> texts[1..][i - 1] == texts[i];
          Ok([v] + vs)
  }

  /** A query is embedded exactly as a one-document batch. */
  lemma QueryIsSingletonBatch(a: RestAdapter, text: string, post: Request -> Response)
    ensures EmbedDocuments(a, [text], post) ==
      match EmbedQuery(a, text, post) case Ok(v) => Ok([v]) case Err(e) => Err(e)
  {
    assert [text][1..] == [];
    assert EmbedDocuments(a, [], post) == Ok([]);
    match EmbedQuery(a, text, post) {
      case Ok(v) => assert [v] + [] == [v];
      case Err(_) =>
    }
  }

  /** Batching splits: embedding `xs + ys` embeds xs, then ys. */
  lemma {:induction false} EmbedDocumentsAppend(a: RestAdapter, xs: seq<string>, ys: seq<string>, post: Request -> Response)
    requires EmbedDocuments(a, xs + ys, post).Ok?
    ensures EmbedDocuments(a, xs, post).Ok? && EmbedDocuments(a, ys, post).Ok?
    ensures EmbedDocuments(a, xs + ys, post).value == EmbedDocuments(a, xs, post).value + EmbedDocuments(a, ys, post).value
  {
    var all := EmbedDocuments(a, xs + ys, post).value;
    assert forall i :: 0 <= i < |xs| ==> (xs + ys)[i] == xs[i];
    assert forall i :: 0 <= i < |ys| ==> (xs + ys)[|xs| + i] == ys[i];
    var left := EmbedDocuments(a, xs, post).value;
    var right := EmbedDocuments(a, ys, post).value;
    assert forall i :: 0 <= i < |all| ==> all[i] == (left + right)[i];
  }
}
