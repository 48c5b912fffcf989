/** Properties of the interceptor: one lemma per branch of the cascade, the
    credential-selection rules, and the scenarios the plugin's test suite
    exercises. */
module InterceptorProperties {
  import opened Wrappers
  import opened JsBuiltins
  import opened ApiSecretKey

  /** Routes without tags, or whose tags do not include "api", always pass,
      whatever the host, the credentials or the secrets. */
  lemma UnprotectedRouteContinues(interceptor: Interceptor, request: Request)
    requires !TaggedApi(request.tags)
    ensures Decide(interceptor, request) == Continue
  {
  }

  /** With no secret configured, a protected route reached through
      "localhost" (any letter case) passes without any credential. */
  lemma LocalhostExemptWithoutSecrets(options: Option<PluginOptions>, request: Request)
    requires Unconfigured(options)
    requires CaseVariantOf(request.hostname, LocalHostName)
    ensures Decide(CreateInterceptor(options), request) == Continue
  {
  }

  /** Once a secret is configured, the host plays no part: a protected route
      passes exactly when the candidate key is one of the secrets. */
  lemma SecretsOverrideLocalhost(interceptor: Interceptor, request: Request)
    requires TaggedApi(request.tags)
    requires interceptor.secrets != []
    ensures Decide(interceptor, request) == Continue <==>
      Candidate(request).Some? && Candidate(request).value in interceptor.secrets
  {
  }

  /** Without the localhost exemption, an empty secret list rejects every
      request to a protected route. */
  lemma RemoteWithoutSecretsRejected(options: Option<PluginOptions>, request: Request)
    requires Unconfigured(options)
    requires TaggedApi(request.tags)
    requires !CaseVariantOf(request.hostname, LocalHostName)
    ensures Decide(CreateInterceptor(options), request) == Unauthorized(UnauthorizedMessageText)
  {
  }

  /** Outside the localhost exemption, a protected route passes exactly when
      the candidate key is present and equal to one of the secrets. */
  lemma AllowIffCandidateIsSecret(interceptor: Interceptor, request: Request)
    requires TaggedApi(request.tags)
    requires !(CaseVariantOf(request.hostname, LocalHostName) && interceptor.secrets == [])
    ensures Decide(interceptor, request) == Continue <==>
      exists k :: Candidate(request) == Some(k) && k in interceptor.secrets
  {
    if Decide(interceptor, request) == Continue {
      var k := Candidate(request).value;
      assert Candidate(request) == Some(k) && k in interceptor.secrets;
    }
  }

  /** A present, non-empty `api-key` header decides alone: two requests that
      differ only in their query parameters get the same verdict. */
  lemma HeaderTakesPrecedence(interceptor: Interceptor, request: Request, query: map<string, string>)
    requires ApiKeyField in request.headers && request.headers[ApiKeyField] != ""
    ensures Decide(interceptor, request.(query := query)) == Decide(interceptor, request)
  {
    assert Candidate(request.(query := query)) == Candidate(request);
  }

  /** An absent or empty `api-key` header is skipped: the verdict is that of
      the same request carrying no `api-key` header at all. */
  lemma EmptyHeaderFallsThrough(interceptor: Interceptor, request: Request)
    requires ApiKeyField !in request.headers || request.headers[ApiKeyField] == ""
    ensures Decide(interceptor, request) ==
      Decide(interceptor, request.(headers := request.headers - {ApiKeyField}))
  {
    assert Candidate(request) == Candidate(request.(headers := request.headers - {ApiKeyField}));
  }

  /** The interceptor has two outcomes only: it continues, or it rejects
      with the exported message, whose text is fixed. */
  lemma RejectionCarriesExportedMessage(interceptor: Interceptor, request: Request)
    ensures Decide(interceptor, request) in {Continue, Unauthorized(messages.unauthorized)}
    ensures messages.unauthorized == "The correct API Key was not provided by the client"
  {
  }

  const ProtectedTags: Option<seq<string>> := Some(["api"])
  const TestSecrets: Option<PluginOptions> := Some(PluginOptions(Some(["secret", "secret2"])))
  const RemoteHost: string := "remote.example"

  /** No options, a local request to a protected route: it passes. */
  lemma ScenarioUnconfiguredLocalhost()
    ensures Decide(CreateInterceptor(None), Request(ProtectedTags, "localhost", map[], map[])) == Continue
  {
  }

  /** No options, a remote request to a protected route: it is rejected. */
  lemma ScenarioUnconfiguredRemote()
    ensures Decide(CreateInterceptor(None), Request(ProtectedTags, RemoteHost, map[], map[]))
      == Unauthorized(messages.unauthorized)
  {
    assert !CaseVariantOf(RemoteHost, LocalHostName) by {
      assert |RemoteHost| != |LocalHostName|;
    }
  }

  /** An untagged route passes for any host, even with secrets configured. */
  lemma ScenarioUntaggedRoute(hostname: string)
    ensures Decide(CreateInterceptor(TestSecrets), Request(None, hostname, map[], map[])) == Continue
  {
  }

  /** A correct key passes, whether sent as header or query parameter. */
  lemma ScenarioCorrectKey(hostname: string)
    ensures Decide(CreateInterceptor(TestSecrets),
                   Request(ProtectedTags, hostname, map["api-key" := "secret"], map[])) == Continue
    ensures Decide(CreateInterceptor(TestSecrets),
                   Request(ProtectedTags, hostname, map[], map["api-key" := "secret2"])) == Continue
  {
  }

  /** A wrong key, or none, is rejected even from localhost once secrets
      are configured; the comparison is case-sensitive. */
  lemma ScenarioWrongOrMissingKey(hostname: string)
    ensures Decide(CreateInterceptor(TestSecrets),
                   Request(ProtectedTags, hostname, map["api-key" := "wrong"], map[])).Unauthorized?
    ensures Decide(CreateInterceptor(TestSecrets),
                   Request(ProtectedTags, hostname, map[], map["api-key" := "wrong"])).Unauthorized?
    ensures Decide(CreateInterceptor(TestSecrets),
                   Request(ProtectedTags, hostname, map["api-key" := "SECRET"], map[])).Unauthorized?
    ensures Decide(CreateInterceptor(TestSecrets),
                   Request(ProtectedTags, hostname, map[], map[])).Unauthorized?
  {
    assert "wrong" !in ["secret", "secret2"];
    assert "SECRET" !in ["secret", "secret2"];
  }
}
