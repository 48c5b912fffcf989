/** The request interceptor of the hapi-api-secret-key plugin: a pure gate,
    evaluated once per request before authentication, that lets a request
    continue or answers it with an unauthorized error carrying a fixed
    message. */
module ApiSecretKey {
  import opened Wrappers
  import opened JsBuiltins

  /** The message of every rejection, also exported as `messages.unauthorized`. */
  const UnauthorizedMessageText: string := "The correct API Key was not provided by the client"

  /** The plugin's exported message table. */
  datatype Messages = Messages(unauthorized: string)

  const messages: Messages := Messages(UnauthorizedMessageText)

  /** The route tag that marks a route as protected. */
  const ApiTag: string := "api"

  /** The host name that is exempt while no secrets are configured. */
  const LocalHostName: string := "localhost"

  /** The header name and the query parameter name that carry the key. */
  const ApiKeyField: string := "api-key"

  /** The plugin options; `secrets` is None when the field is absent. */
  datatype PluginOptions = PluginOptions(secrets: Option<seq<string>>)

  /** The parts of a hapi request the interceptor reads: the route's tags
      (None when the route declares none), the resolved host name, and the
      header and query parameter maps. */
  datatype Request = Request(
    tags: Option<seq<string>>,
    hostname: string,
    headers: map<string, string>,
    query: map<string, string>)

  /** The interceptor's answer to the hapi pipeline. */
  datatype Verdict = Continue | Unauthorized(message: string)

  /** The closure returned by `createInterceptor`: it captures only the
      resolved secret list. */
  datatype Interceptor = Interceptor(secrets: seq<string>)

  /** The options configure no secret: they are absent, have no `secrets`
      field, or hold an empty list. */
  predicate Unconfigured(options: Option<PluginOptions>)
  {
    options.None? || options.value.secrets.None? || options.value.secrets.value == []
  }

  /** `createInterceptor(options)` with its default
      `(options && options.secrets) || []`: an unconfigured plugin captures
      no secret, and a non-empty list is captured verbatim. */
  function CreateInterceptor(options: Option<PluginOptions>): (i: Interceptor)
    ensures i.secrets == [] <==> Unconfigured(options)
    ensures i.secrets != [] ==> options == Some(PluginOptions(Some(i.secrets)))
  {
    match options
    case None => Interceptor([])
    case Some(o) =>
      match o.secrets
      case None => Interceptor([])
      case Some(list) => Interceptor(list)
  }

  /** JavaScript truthiness of an optional string: present and non-empty. */
  predicate Truthy(v: Option<string>)
  {
    v.Some? && v.value != ""
  }

  /** JavaScript `a || b` on optional strings. */
  function Or(a: Option<string>, b: Option<string>): Option<string>
  {
    if Truthy(a) then a else b
  }

  /** The route declares tags and one of them is exactly "api". */
  predicate TaggedApi(tags: Option<seq<string>>)
  {
    tags.Some? && ApiTag in tags.value
  }

  /** `!tags || tags.indexOf('api') < 0` is false exactly when the route is
      tagged "api". */
  function IsApiRoute(tags: Option<seq<string>>): (b: bool)
    ensures b <==> TaggedApi(tags)
  {
    tags.Some? && IndexOf(tags.value, ApiTag) >= 0
  }

  /** `hostname.toLowerCase() === 'localhost'`: the host name is "localhost"
      in any mixture of letter cases. */
  function IsLocalHost(hostname: string): (b: bool)
    ensures b <==> CaseVariantOf(hostname, LocalHostName)
  {
    ToLowerMatchesWord(hostname, LocalHostName);
    ToLower(hostname) == LocalHostName
  }

  /** `request.headers['api-key'] || request.query['api-key']`: a present,
      non-empty header is the only candidate; otherwise the query value,
      which may be absent or empty, is the candidate. */
  function Candidate(request: Request): (key: Option<string>)
    ensures ApiKeyField in request.headers && request.headers[ApiKeyField] != "" ==>
      key == Some(request.headers[ApiKeyField])
    ensures ApiKeyField !in request.headers || request.headers[ApiKeyField] == "" ==>
      key == (if ApiKeyField in request.query then Some(request.query[ApiKeyField]) else None)
  {
    Or(Get(request.headers, ApiKeyField), Get(request.query, ApiKeyField))
  }

  /** The conditions under which the interceptor lets a request through,
      stated without the cascade: the route is not protected, or it is a
      local request while no secret is configured, or the candidate key is
      one of the secrets (exact, case-sensitive equality). */
  predicate Admits(secrets: seq<string>, request: Request)
  {
    || !TaggedApi(request.tags)
    || (CaseVariantOf(request.hostname, LocalHostName) && secrets == [])
    || (Candidate(request).Some? && Candidate(request).value in secrets)
  }

  /** The interceptor applied to one request. Rejections all carry the
      exported unauthorized message. */
  function Decide(interceptor: Interceptor, request: Request): (v: Verdict)
    ensures v == Continue <==> Admits(interceptor.secrets, request)
    ensures v != Continue ==> v == Unauthorized(messages.unauthorized)
  {
    var secrets := interceptor.secrets;
    if !IsApiRoute(request.tags) then Continue
    else if IsLocalHost(request.hostname) && |secrets| == 0 then Continue
    else
      var apiKey := Candidate(request);
      if apiKey.Some? && IndexOf(secrets, apiKey.value) >= 0 then Continue
      else Unauthorized(UnauthorizedMessageText)
  }
}
