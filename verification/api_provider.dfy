/** The provider router: the closed set of back-end providers, the
    process-wide preferred provider, the model-manager capability (offered by
    LM Studio only) and the choice of send function for a prompt. The send
    functions themselves are opaque; a request is modelled as the function
    chosen and the prompt handed to it. */
module ApiProvider {
  import opened JsString

  datatype Provider = Claude | LmStudio | Ollama | OpenAi
  {
    /** The enum's string value. */
    function Value(): string
    {
      match this
      case Claude => "claude"
      case LmStudio => "lmstudio"
      case Ollama => "ollama"
      case OpenAi => "openai"
    }
  }

  /** The provider modules' send functions. */
  datatype SendFunction = SendClaudeRequest | SendLmStudioRequest | SendOllamaRequest | SendOpenAiRequest

  /** Which provider a send function talks to. */
  function Backend(f: SendFunction): Provider
  {
    match f
    case SendClaudeRequest => Claude
    case SendLmStudioRequest => LmStudio
    case SendOllamaRequest => Ollama
    case SendOpenAiRequest => OpenAi
  }

  /** The model manager capability; its model listing and selection belong
      to the LM Studio module and are not modelled. */
  datatype ModelManager = ModelManager(sendRequest: SendFunction)

  const LmStudioManager: ModelManager := ModelManager(SendLmStudioRequest)

  datatype ApiRequest = ApiRequest(target: SendFunction, prompt: string)

  const DefaultProvider: Provider := LmStudio

  /** `getAvailableProviders`: the four providers, in declaration order. */
  function AvailableProviders(): (r: seq<Provider>)
    ensures |r| == 4
    ensures forall i, j :: 0 <= i < j < |r| ==> r[i] != r[j]
    ensures forall i :: 0 <= i < |r| ==> r[i].Value() == ["claude", "lmstudio", "ollama", "openai"][i]
  {
    [Claude, LmStudio, Ollama, OpenAi]
  }

  /** Every provider is offered. */
  lemma AllProvidersAvailable(p: Provider)
    ensures p in AvailableProviders()
  {
    var r := AvailableProviders();
    match p
    case Claude => assert r[0] == p;
    case LmStudio => assert r[1] == p;
    case Ollama => assert r[2] == p;
    case OpenAi => assert r[3] == p;
  }

  /** The string values tell the providers apart. */
  lemma ValuesDistinct(p: Provider, q: Provider)
    ensures p.Value() == q.Value() <==> p == q
  {
  }

  /** `getModelManagerForProvider`: the manager for LM Studio, nothing for
      the others. A manager's send function is the one the router would
      choose for its provider. */
  function ModelManagerFor(p: Provider): (r: Option<ModelManager>)
    ensures r.Some? <==> p == LmStudio
    ensures r.Some? ==> Backend(r.value.sendRequest) == p && r.value.sendRequest == Route(p)
  {
    match p
    case LmStudio => Some(LmStudioManager)
    case _ => None
  }

  /** The switch in `sendApiRequest`: the send function of the provider. */
  function Route(p: Provider): (r: SendFunction)
    ensures Backend(r) == p
  {
    match p
    case Claude => SendClaudeRequest
    case LmStudio => SendLmStudioRequest
    case OpenAi => SendOpenAiRequest
    case Ollama => SendOllamaRequest
  }

  /** Different providers get different send functions. */
  lemma RouteInjective(p: Provider, q: Provider)
    ensures Route(p) == Route(q) <==> p == q
  {
    assert Backend(Route(p)) == p && Backend(Route(q)) == q;
  }

  /** The preferred-provider state. */
  class ProviderSelector {
    var preferred: Provider

    constructor ()
      ensures preferred == DefaultProvider
    {
      preferred := DefaultProvider;
    }

    /** `setpreferredProvider`: any provider may follow any other. */
    method SetPreferredProvider(p: Provider)
      modifies this
      ensures preferred == p
    {
      preferred := p;
    }

    method GetPreferredProvider() returns (p: Provider)
      ensures p == preferred
    {
      p := preferred;
    }

    /** `sendApiRequest`: exactly one provider's send function gets the
        prompt, unchanged, and it is the preferred provider's. */
    method SendApiRequest(prompt: string) returns (request: ApiRequest)
      ensures Backend(request.target) == preferred
      ensures request.prompt == prompt
    {
      request := ApiRequest(Route(preferred), prompt);
    }
  }

  /** Selecting a provider and sending goes to that provider. */
  method SelectAndSend(selector: ProviderSelector, p: Provider, prompt: string) returns (request: ApiRequest)
    modifies selector
    ensures selector.preferred == p
    ensures Backend(request.target) == p && request.prompt == prompt
  {
    selector.SetPreferredProvider(p);
    var current := selector.GetPreferredProvider();
    assert current == p;
    request := selector.SendApiRequest(prompt);
  }
}
