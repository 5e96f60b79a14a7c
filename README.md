# shellpane communication client — Dafny model

This project models the typed HTTP client of shellpane, a service that runs named
views (parameterised shell commands) and returns their captured output. The client
has two operations:

- `GetStepOutput` fetches the output of one step of a view. It joins the configured
  host to the step-output route and parses the result into a URL. Into that URL's
  query it writes `view_name`, `step_name`, one `view_env<Name>` key per view
  override and one `step_env<Name>` key per step override. Each write is a
  `url.Values.Set`, so a later override with the same name replaces an earlier one.
- `GetViewSpecs` fetches the catalogue of views. It sends the parsed route URL
  unchanged.

Both operations then run one JSON exchange (`doJsonRequest`). The exchange encodes
the payload, builds the request, sends it, checks for status 200, reads the body
and decodes it. It returns at the first stage that fails.

Modules:

- `Results` (results.dfy): `Option` and `Result`.
- `Domain` (domain.dfy): the value types (`ViewSpec`, `ViewOutput`, `EnvOverride`,
  the request and response records).
- `Query` (query.dfy): the query map (`Values`, Go's `url.Values`) and `Set`. The
  query construction is the method `EncodeStepOutputQuery`, with two loops. It is
  proved equal to the specification function `StepOutputQuery`, and the lemmas
  state what that function leaves at each key.
- `Transport` (transport.dfy): `DoJsonRequest`, a method with early returns. It is
  proved equal to `Exchange` and `ExchangeTrace`. Those two are defined from the
  first failing stage of the fixed stage list `Pipeline`.
- `Client` (client.dfy): the two façade methods.

Library and network behaviour is taken as parameters:

- `url.Parse` is a function `string -> Option<Url>`.
- `Transport<R>` gives the outcome of each library stage: whether the payload
  encodes, whether a request builds for a URL, what sending yields (`None` covers
  transport errors, cancellation and deadlines), and what decoding a body yields.
- The route constants `RouteGetStepOutput` and `RouteGetViewSpecs` are defined in a
  file that is not part of this model. They are the `Routes` parameter.

Every façade and exchange method also returns the stages it ran (`trace`). This
lets the contracts say which stages never ran.

## Model

| member | source | states |
|---|---|---|
| `Query.Set` | internal/communication/client.go:45-46 | after `Set` the key holds exactly one value; every other key keeps its values; the key set grows by that key only |
| `Query.ApplyOverrides` | internal/communication/client.go:47-52 | the keys after one scope's overrides are the old keys plus `prefix + name` for every entry |
| `Query.StepOutputQuery` | internal/communication/client.go:44-52 | the final query's keys are the base query's keys plus exactly the written keys (`view_name`, `step_name`, every `view_env`+name, every `step_env`+name) |
| `Query.EncodeStepOutputQuery` | internal/communication/client.go:44-52 | the in-place construction with its two override loops yields exactly the query `StepOutputQuery` describes |
| `Query.PrefixedKeyInjective` | internal/communication/client.go:48 | one prefix glued to two names gives equal keys only for equal names |
| `Query.PrefixedKeysDistinct` | internal/communication/client.go:45-51 | no `view_env`/`step_env` key equals `view_name` or `step_name`; a `view_env` key never equals a `step_env` key |
| `Query.ApplyOverridesLastWins` | internal/communication/client.go:47-49 | within one scope, the key of the last entry with a given name holds exactly that entry's value |
| `Query.ApplyOverridesElsewhere` | internal/communication/client.go:47-52 | a key no override writes is present after the overrides iff it was before, with the same values |
| `Query.NamesAreExact` | internal/communication/client.go:45-52 | `view_name` holds exactly `[ViewName]` and `step_name` exactly `[StepName]`; no override overwrites them |
| `Query.ViewEnvLastWins` | internal/communication/client.go:47-49 | every view override's key is present; with duplicate names it holds the value of the last such entry |
| `Query.StepEnvLastWins` | internal/communication/client.go:50-52 | every step override's key is present; with duplicate names it holds the value of the last such entry |
| `Query.ScopesDoNotCollide` | internal/communication/client.go:47-52 | a view override and a step override with the same name give two distinct keys, each with its own value |
| `Query.WrittenKeysSingleValued` | internal/communication/client.go:45-52 | every written key holds exactly one value, because `Set` replaces rather than appends |
| `Query.UnwrittenKeysUnchanged` | internal/communication/client.go:44-52 | a key of the route URL's own query that is not written keeps its values; no key appears that was neither there nor written |
| `Query.BuildCompileExample` | internal/communication/client.go:44-52 | view `build`, step `compile`, override `BRANCH=main`, empty base query: exactly `view_name=[build]`, `step_name=[compile]`, `view_envBRANCH=[main]` |
| `Transport.FirstFailureFrom` | internal/communication/client.go:79-111 | the result is the position of the first failing stage at or after `i`, or `None` exactly when no later stage fails |
| `Transport.DoJsonRequest` | internal/communication/client.go:79-111 | the early-return sequence returns exactly the first failing stage's error, or the decoded body; it runs exactly the stages up to the first failure |
| `Transport.FirstFailingStageDecides` | internal/communication/client.go:79-111 | if stage `i` fails and all earlier stages pass, the exchange returns stage `i`'s error and runs no later stage |
| `Transport.NonOkStatusStopsBeforeBody` | internal/communication/client.go:96-108 | a status other than 200 after a successful send returns `UnexpectedStatus(status)`, and the body is neither read nor decoded |
| `Transport.SucceedsIffNoStageFails` | internal/communication/client.go:79-111 | the exchange succeeds iff no stage fails; then the status was 200, the body was read, the result is its decoding, and every stage ran |
| `Client.GetStepOutput` | internal/communication/client.go:37-61 | parse failure: `UrlParseError(host+route)`, no request, no stage run; otherwise the exchange runs against the parsed URL with query `StepOutputQuery(parsed query, req)`, and its result is returned |
| `Client.GetViewSpecs` | internal/communication/client.go:64-77 | parse failure: `UrlParseError(host+route)`, no request, no stage run; otherwise the exchange runs against the parsed URL unchanged, with no query parameter added |

## Left out

- The HTTP round trip (`HttpClient.Do`), context cancellation and deadlines, and reading the body are network I/O. They are modelled only as the outcomes in `Transport<R>`.
- JSON encoding and decoding belong to `encoding/json`. Each is one success-or-failure stage. With the nil payload both callers pass, encoding cannot fail in practice. The model still keeps the branch.
- `url.Parse` grammar, percent-escaping, and the key order of `url.Values.Encode` belong to the library. The query is a map. The model assumes that encoding the query and parsing it again inside `http.NewRequestWithContext` gives back the same map.
- Error message text from `errors.Wrapf` and the `errutil` helpers is left out; only the error kind and its data (URL, status, body) are kept. `errutil` is not part of this model. `errutil.ExpectHTTPStatusCode` is taken to fail exactly when the status is not 200.
- Client.GetStepOutput: when the exchange fails, Go returns whatever `json.Unmarshal` may already have written into `rsp` together with the error. The model returns only the error.
- Client.GetViewSpecs: same as above; a partially decoded response is not returned.
- `ClientConfig.BasicAuth` is carried in the configuration but never applied in the client, so it is not modelled.
- `NewClient` only wraps its options; it is represented by the `Client` constructor.
- The domain records have no operations. They are mirrored as datatypes. The fields of the `business` request and response types are not part of this model; the model uses the fields the client reads.
