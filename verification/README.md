# hapi-api-secret-key interceptor, in Dafny

This project models the request interceptor of the `hapi-api-secret-key`
plugin. The plugin hooks the interceptor into hapi's `onPreAuth` stage. For
each request the interceptor decides whether the request continues or is
answered with an unauthorized error. The cascade it follows is:

1. A route that does not declare the tag `"api"` continues.
2. A request whose host name lower-cases to `"localhost"` continues when no
   secret is configured.
3. The candidate key is the `api-key` header. When that header is absent or
   empty, JavaScript's `||` falls back to the `api-key` query parameter.
4. The request continues when the candidate is one of the configured secrets.
5. Every other request is rejected with the fixed message
   "The correct API Key was not provided by the client". The plugin also
   exports this message as `messages.unauthorized`.

Files:

- `wrappers.dfy` (module `Wrappers`): `Option` and map lookup.
- `js_builtins.dfy` (module `JsBuiltins`): the JavaScript built-ins the
  interceptor calls. These are ASCII `toLowerCase` and `Array.prototype.indexOf`.
- `interceptor.dfy` (module `ApiSecretKey`): options, requests and verdicts;
  `CreateInterceptor` with its secret default; the cascade `Decide`; and `Admits`, a declarative
  statement of when a request passes. `Decide`'s contract ties the two
  together.
- `properties.dfy` (module `InterceptorProperties`): one lemma per branch,
  the credential-selection rules, and the scenarios of the test suite.

An explicit `secrets: []` is truthy in JavaScript, so index.js:9 returns
that empty array itself rather than the `[]` default. The result is the
empty list either way.

The checks `!secrets` at `index.js` lines 18 and 23 can never fire, because
line 9 always produces a list. The model drops them.

## Model

| member | source | states |
|---|---|---|
| ApiSecretKey.CreateInterceptor | index.js:8-9 | The interceptor captures no secret exactly when the options are absent, have no `secrets` field, or hold an empty list. A non-empty list is captured as the options carry it. |
| ApiSecretKey.IsApiRoute | index.js:12-15 | A route is protected exactly when it declares tags and one of them is exactly `"api"`. |
| ApiSecretKey.IsLocalHost | index.js:17 | The host-name test holds exactly when the name is `"localhost"` in any mixture of letter cases. |
| ApiSecretKey.Candidate | index.js:22 | A present, non-empty `api-key` header is the candidate. Otherwise the `api-key` query value is the candidate, and it may be absent or empty. |
| ApiSecretKey.Decide | index.js:11-28 | A request continues exactly when `Admits` holds. That means: the route is unprotected, or the host is localhost with no secrets, or the candidate is an exact member of the secrets. Every other verdict is `Unauthorized` with the exported message. |
| JsBuiltins.IndexOf | index.js:13 | Models `indexOf`. The result is -1 exactly when the element is absent. Otherwise it is the first position holding the element. |
| JsBuiltins.ToLower | index.js:17 | Models `toLowerCase` on ASCII. Length is kept, each character is lowered, and no upper-case letter remains. |
| JsBuiltins.ToLowerMatchesWord | index.js:17 | Comparing a lowered string with an all-lower-case word is the same as a case-insensitive comparison with that word. |
| JsBuiltins.LowerCharPreimage | index.js:17 | Only a lower-case letter itself and its upper-case form lower to that letter. |
| Wrappers.Get | index.js:22 | Looking up a header or query field gives a value exactly when the field is present, and the value is the stored one. |
| InterceptorProperties.UnprotectedRouteContinues | index.js:12-15 | A route without the `"api"` tag continues, whatever the host, credentials or secrets. |
| InterceptorProperties.LocalhostExemptWithoutSecrets | index.js:9-20 | With no secret configured, a protected request to localhost in any case continues without credentials. |
| InterceptorProperties.SecretsOverrideLocalhost | index.js:17-27 | Once a secret is configured, the host has no effect. A protected request continues exactly when its candidate is a secret. |
| InterceptorProperties.RemoteWithoutSecretsRejected | index.js:9-27 | With no secret configured, a protected request to any host other than localhost is rejected. |
| InterceptorProperties.AllowIffCandidateIsSecret | index.js:22-27 | Outside the localhost exemption, a protected request continues exactly when some key is the candidate and is in the secrets. |
| InterceptorProperties.HeaderTakesPrecedence | index.js:22 | A present, non-empty header makes the query parameters irrelevant to the verdict. |
| InterceptorProperties.EmptyHeaderFallsThrough | index.js:22 | An empty header gives the same verdict as no header at all. |
| InterceptorProperties.RejectionCarriesExportedMessage | index.js:6-28 | The interceptor has exactly two outcomes: continue, or unauthorized with `messages.unauthorized`, which is the fixed text. |
| InterceptorProperties.ScenarioUnconfiguredLocalhost | test.js:71-75 | With no options, a protected request to localhost continues. |
| InterceptorProperties.ScenarioUnconfiguredRemote | test.js:86-90 | With no options, a protected request to a remote host is rejected with the exported message. |
| InterceptorProperties.ScenarioUntaggedRoute | test.js:117-121 | With secrets configured, an untagged route continues for any host. |
| InterceptorProperties.ScenarioCorrectKey | test.js:127-143 | With secrets `secret` and `secret2`, a correct header or query key continues from any host. |
| InterceptorProperties.ScenarioWrongOrMissingKey | test.js:175-189 | With secrets configured, these are rejected even from localhost: a wrong key in the header or query, a missing key, or a key that differs only in case. |

## Left out

- Plugin registration and hapi wiring are not modelled. This covers `server.ext('onPreAuth', …)`, `next()` and the `attributes` block (index.js:32-43). They are framework plumbing with no decision in them.
- `reply.continue()`, `reply(...)` and the Boom error object are reduced to the two-valued `Verdict`. The HTTP 401 status and the response body come from the framework.
- JsBuiltins.ToLower: lowers ASCII letters only, while JavaScript's `toLowerCase` applies full Unicode case mapping. The comparison with `"localhost"` is unaffected: no non-ASCII character lower-cases to one of its letters.
- Only arrays of strings are modelled for `secrets`. A string `secrets` would make `indexOf` a substring search, and a number or plain object would make `secrets.indexOf` throw. Route tags are modelled only as an array or absent.
- Repeated query parameters are not modelled; hapi turns them into an array. A repeated header arrives as one string joined with ", ", which the model covers as an ordinary header value.
- ApiSecretKey.CreateInterceptor: captures the secret list as a value. index.js:9 keeps a reference to the caller's `options.secrets` array and lines 18 and 23 read it on every request, so a host that mutates that array after registration changes later verdicts. The model does not cover such mutation.
- There are no environment-derived secrets (`API_KEY_1`, `API_KEY_2`), because `index.js` does not read the process environment.
- Idempotence of the interceptor is not stated as a lemma. `Decide` is a pure function, so repeated evaluation on the same input is equal by construction.
