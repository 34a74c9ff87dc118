/**
 * The exceptions the transport raises, and the status-code classification of
 * `HttpClient.handle_error_response`.
 *
 * The four typed errors of the library carry the status code and the decoded error body.
 * The other variants stand for the Python exceptions that other steps of a request raise.
 */
module Errors {
  import opened Wrappers
  import opened Json

  datatype Error =
    | ResourceError(status: int, errors: Json)
    | RateLimitError(status: int, errors: Json)
    | RequestError(status: int, errors: Json)
    | ServerError(status: int, errors: Json)
      /** `requests.HTTPError("Unknown HTTP error response")`: it carries no status code. */
    | UnknownHttpError
      /** The `ValueError` raised when a non-2xx body is not JSON; it embeds the code and the body. */
    | ResponseParseError(status: int, text: string)
      /** The `JSONDecodeError` of `resp.json()` on a 2xx response that claims to be JSON. */
    | BodyDecodeError(text: string)
      /** The `TypeError` of `"OAuth " + None` when the configuration holds no API key. */
    | MissingApiKey
      /** The `KeyError` of `kwargs["container"]` for an enveloped body without a container name. */
    | MissingContainer
      /** The `TypeError` of `unwrap_envelope` on a JSON shape that is not an object. */
    | UnwrapTypeError
      /** The `ValueError` of `min([])` inside the rate-limit hook (only when `max_requests <= 0`). */
    | EmptyWindowMin

  /**
   * `handle_error_response`: it never returns normally. A body that does not decode as
   * JSON fails with the parse error before any classification; otherwise the status code
   * alone picks the error, and the five ranges below partition all codes.
   */
  function HandleErrorResponse(status: int, decoded: Option<Json>, text: string): (e: Error)
    ensures e.ResponseParseError? <==> decoded.None?
    ensures e.ResponseParseError? ==> e.status == status && e.text == text
    ensures e.ResourceError? <==> decoded.Some? && status == 422
    ensures e.RateLimitError? <==> decoded.Some? && (status == 420 || status == 429)
    ensures e.RequestError? <==> decoded.Some? && 400 <= status < 500 && status !in {420, 422, 429}
    ensures e.ServerError? <==> decoded.Some? && 500 <= status < 600
    ensures e.UnknownHttpError? <==> decoded.Some? && (status < 400 || 600 <= status)
    ensures (e.ResourceError? || e.RateLimitError? || e.RequestError? || e.ServerError?) ==>
              e.status == status && e.errors == decoded.value
  {
    match decoded
    case None => ResponseParseError(status, text)
    case Some(errors) =>
      if status == 422 then ResourceError(status, errors)
      else if status == 420 || status == 429 then RateLimitError(status, errors)
      else if 400 <= status < 500 then RequestError(status, errors)
      else if 500 <= status < 600 then ServerError(status, errors)
      else UnknownHttpError
  }
}
