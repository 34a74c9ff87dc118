# statuspageio transport, modelled in Dafny

A model of the HTTP transport of the `statuspageio` client library for the Statuspage
REST API, and of its configuration object, with proofs of what they promise:

- the client-side sliding-window rate limiter that the session runs as a response hook
  (`HttpClient.handle_rate_limit`), as a class method over a `seq<real>` history;
- the envelope protocol: outbound bodies wrapped as `{container: body}`, inbound bodies
  unwrapped to their `items` list, and `raw` mode bypassing both;
- request shaping (URL, default headers, JSON content type when a body is sent), the
  interpretation of the response (2xx check, JSON or raw content) and the classification of
  error responses into the library's typed errors;
- `Config`: its defaults, the fields `__post_init__` fixes, and `validate`.

Modules, one file each: `Wrappers` (Option, Result), `Json` (decoded JSON values with
Python's dict and substring semantics), `Errors`, `Envelope`, `RateLimit` (the pure
specification of the hook), `Configuration` (class `Config`) and `Transport` (the request
and response functions and class `HttpClient`).

Time is a `real` number of seconds passed in as `now`; `HandleRateLimit` returns the wait
(`Gate.Sleep`) instead of sleeping. The HTTP exchange is a parameter of `Request`: the server
as a function from the request actually sent to the response it returns.

The model follows the code where its behaviour is surprising:

- the rate-limit step runs after the exchange, as the response hook does, not before it;
- `HTTPError("Unknown HTTP error response")` carries no status code, unlike the four typed
  errors;
- with `max_requests <= 0` and nothing left in the window, the hook's `min([])` raises, which
  the model keeps as `Gate.EmptyMinError` (the history stays pruned, nothing is recorded);
- `validate` rejects only a missing API key; an empty key is accepted;
- the history is not bounded by `max_requests`: right after a wait it holds at least
  `max_requests + 1` entries, because `now` is appended without pruning again.

## Model

| member | source | states |
|---|---|---|
| `Transport.HttpClient.HandleRateLimit` | statuspageio/http_client.py:32-51 | the new history is the old one pruned to the window plus `now` as its last element (length = retained + 1); the returned gate is the decision on the pruned history; when `min` raises nothing is appended |
| `Transport.HttpClient.constructor` | statuspageio/http_client.py:18-30 | the limiter parameters are copied from the configuration, the history starts empty, the session headers start empty |
| `Transport.HttpClient.Request` | statuspageio/http_client.py:68-119 | a missing API key fails before anything changes; otherwise the caller's headers stick to the session; a missing container fails after that; otherwise the server receives the shaped request with session headers merged under it, the hook runs, and the result is the interpretation of the response (or the `min` failure) |
| `RateLimit.InWindow` | statuspageio/http_client.py:38 | the source's own window test `now - t <= window`, with no contract of its own; what pruning keeps is stated by `RateLimit.PruneMembers` and `RateLimit.PruneCounts` |
| `RateLimit.Prune` | statuspageio/http_client.py:35-39 | pruning never lengthens the history |
| `RateLimit.PruneCounts` | statuspageio/http_client.py:35-39 | every timestamp within the window keeps its multiplicity, every older one (`now - t > window`) disappears |
| `RateLimit.PruneMembers` | statuspageio/http_client.py:35-39 | the retained timestamps are exactly the old ones with `now - t <= window` |
| `RateLimit.PruneAppend` | statuspageio/http_client.py:35-39 | pruning distributes over concatenation, so relative order is kept |
| `RateLimit.PruneSingleton` | statuspageio/http_client.py:38 | one timestamp is kept or dropped by the window test alone |
| `RateLimit.PruneIdempotent` | statuspageio/http_client.py:35-39 | pruning twice at the same time is pruning once |
| `RateLimit.PruneAll` | statuspageio/http_client.py:35-39 | a history entirely within the window is kept whole |
| `RateLimit.Min` | statuspageio/http_client.py:46 | the minimum is an element of the history and no larger than any element |
| `RateLimit.NextHistory` | statuspageio/http_client.py:35-51 | the new history starts with the pruned one and adds exactly `now` unless `min` raised; every entry is `now` or an old in-window timestamp |
| `RateLimit.Decide` | statuspageio/http_client.py:42-48 | no wait exactly when fewer than `max_requests` remain; `min([])` fails exactly when the limit is reached by an empty history; a wait is never negative and ends when the oldest retained timestamp is `window` old (zero if it already is) |
| `RateLimit.WaitOnPrunedHistory` | statuspageio/http_client.py:43-47 | on a pruned history the clamp at zero never applies: the wait is `window - (now - min)` |
| `RateLimit.WaitAtMostWindow` | statuspageio/http_client.py:43-47 | with no timestamp later than `now` and a non-negative window, the wait is at most the window |
| `RateLimit.FirstRequestNeverWaits` | statuspageio/http_client.py:26 | with a positive limit the first request (empty history) is admitted and leaves `[now]` |
| `RateLimit.WaitLeavesHistoryOverLimit` | statuspageio/http_client.py:42-51 | after a wait the recorded history is longer than `max_requests` |
| `RateLimit.MinOfChronological` | statuspageio/http_client.py:46 | on a chronological history the minimum is the first entry |
| `RateLimit.PruneChronological` | statuspageio/http_client.py:35-39 | pruning keeps a chronological history chronological |
| `RateLimit.ExtendChronological` | statuspageio/http_client.py:51 | appending a time no earlier than every recorded one keeps the history chronological |
| `RateLimit.StepKeepsHistoryOrdered` | statuspageio/http_client.py:34-51 | with a clock that never goes back the history stays chronological, and every entry after a step is at most `window` older than `now` |
| `RateLimit.BurstWaitsForOldest` | statuspageio/http_client.py:42-48 | a full in-window burst waits `window - (now - first)`, until its first request leaves the window, not the full window |
| `Errors.HandleErrorResponse` | statuspageio/http_client.py:121-140 | never returns normally: undecodable body gives the parse error with the status and text; otherwise 422 resource, 420/429 rate limit, other 4xx request, 5xx server, anything else the unknown HTTP error; typed errors carry the status and the decoded body |
| `Envelope.Wrap` | statuspageio/http_client.py:142-144 | the envelope is an object whose only key is the container, mapping to the body |
| `Envelope.Characters` | statuspageio/http_client.py:149 | iterating a string yields one string value per character, each exactly one character long, and joining their texts in order gives back the string |
| `Envelope.KeyStrings` | statuspageio/http_client.py:149 | the object's keys wrapped as string values, with no contract of its own; what iterating an object yields is stated by `Envelope.Iterate` in terms of `Json.Keys` |
| `Envelope.Iterate` | statuspageio/http_client.py:149 | iterating an array gives its elements, a string its characters, an object its keys by first appearance; a number, boolean or null is not iterable |
| `Envelope.Unwrap` | statuspageio/http_client.py:146-152 | an object with `items` unwraps to the list that iterating `items` yields (never to the object itself), an object without it comes back whole; a list comes back whole unless it holds the string `items`, a string unless `items` occurs in it; the only failure is the `TypeError`, always on scalars |
| `Envelope.UnwrapPage` | statuspageio/http_client.py:148-150 | an object whose last `items` binding is the list `[a, b, c]` unwraps to `[a, b, c]` in order |
| `Envelope.WrapThenUnwrap` | statuspageio/http_client.py:142-152 | an envelope under a container other than `items` comes back whole and yields the wrapped body under its container |
| `Envelope.WrapItemsThenUnwrap` | statuspageio/http_client.py:142-152 | a list wrapped under `items` unwraps to its elements |
| `Envelope.UnwrapObjectWithListSucceeds` | statuspageio/http_client.py:146-152 | unwrapping an object never fails when its `items`, if any, is a list |
| `Json.HasKey` | statuspageio/http_client.py:150 | a key is present in a decoded object exactly when it has a last binding |
| `Json.Get` | statuspageio/http_client.py:149 | a key's value is that of its last binding in the decoded object |
| `Json.Keys` | statuspageio/http_client.py:149 | iterating an object yields exactly its keys, each once, in order of first appearance |
| `Json.Contains` | statuspageio/http_client.py:109 | the substring test holds exactly when the needle occurs at some index |
| `Transport.Url` | statuspageio/http_client.py:69-72 | the URL is `https://api.statuspage.io/` + version + `/` + path, and the path is recoverable verbatim (no slash normalisation) |
| `Transport.UserHeaders` | statuspageio/http_client.py:80-82 | the source's own choice of the caller's headers or none, with no contract of its own; the session update it feeds is stated by `Transport.HttpClient.Request` |
| `Transport.NeedsContainer` | statuspageio/http_client.py:87-91 | the source's own guard for looking up the container, with no contract of its own; the error it leads to and the payload otherwise are stated by `Transport.BuildRequest` |
| `Transport.RequestHeaders` | statuspageio/http_client.py:74-77 | exactly two headers; authorization is `OAuth ` + key; the content type is JSON exactly when a body is sent, form-encoded otherwise |
| `Transport.BuildRequest` | statuspageio/http_client.py:68-102 | fails exactly on a missing API key or an enveloped body without container; otherwise the URL, exactly the headers of `RequestHeaders` (JSON content type with a body, form-encoded without), timeout and TLS flag, and a payload that is absent without body, the body in raw mode and `{container: body}` otherwise |
| `Transport.Dispatched` | statuspageio/http_client.py:83-102 | the sent headers are the session's overridden by the per-call ones; nothing else changes |
| `Transport.IsSuccessStatus` | statuspageio/http_client.py:104 | the source's own test that the status lies in 200..299, with no contract of its own; what follows from it is stated by `Transport.InterpretResponse` and `Transport.StatusDecidesHttpFailure` |
| `Transport.IsJsonResponse` | statuspageio/http_client.py:107-110 | a response is read as JSON exactly when it has a content type in which `json` occurs |
| `Transport.InterpretResponse` | statuspageio/http_client.py:104-119 | success only on 2xx, with the response's status and headers; non-2xx gives the error of `HandleErrorResponse`; non-JSON content is returned raw; JSON is decoded (or fails to), returned whole in raw mode and unwrapped otherwise |
| `Transport.StatusDecidesHttpFailure` | statuspageio/http_client.py:104-105 | a 2xx response never yields an HTTP error and a non-2xx one always does |
| `Transport.RawModeBypassesEnvelope` | statuspageio/http_client.py:85-92 | in raw mode the payload is the body verbatim and a paginated answer is returned without unwrapping, while non-raw unwraps it |
| `Configuration.Config.constructor` | statuspageio/config.py:10-32 | defaults 30 s timeout, `v1`, 5 requests per 5.6 s window, TLS verification on; protocol is always `https`, host always `api.statuspage.io`, user agent derived from the package version |
| `Configuration.Config.Validate` | statuspageio/config.py:34-45 | fails if and only if the API key is missing; otherwise returns with one page-id warning exactly when the page id is missing and one organization-id warning exactly when that is missing, and no other, page first |

## Left out

- The HTTP exchange (`requests.Session.request`, TLS, timeouts, connection reuse, redirects and transport exceptions) is abstract: `Request` takes the server as a function, and a failing exchange, which would skip the hook, is not modelled.
- `sleep()` and `time()`: the clock is the `now` parameter and the wait is returned; re-checking the window after waking is not modelled.
- The throughput bound over a burst of many calls depends on how much time passes during each sleep; only the single-step wait is proved (`BurstWaitsForOldest`).
- Floating point: timestamps and the window are exact reals, so 5.6 is exactly 5.6.
- JSON text encoding (`dumps`) and decoding (`resp.json()`): the payload is sent as a JSON value and the response carries its decoded value as an `Option`.
- `munchify` attribute access: identity on decoded values.
- The response's case-insensitive header lookup: the response carries the `Content-Type` value it finds, if any.
- The library's default session headers (user agent, accept, encoding) and the case-insensitive merge of session headers: the session starts with no headers.
- `HttpClient.get`, `post`, `put`, `patch`, `delete`: one-line forwards to `request`.
- `enable_logging` and the `verbose` switch: logging configuration.
- `statuspageio/errors.py` and `statuspageio/version.py` are not part of this model; the exception classes are taken to carry the status and decoded body they are raised with, and the version is a constructor parameter.
- The service classes and the client facade (`services/*.py`, `client.py`), including the setters that reassign `page_id` and `organization_id`.
- Concurrency around the request history: the library is single-threaded.
