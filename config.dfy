/**
 * The client configuration (`statuspageio.config.Config`): a dataclass whose constructor
 * takes every field with its default, whose `__post_init__` fixes the protocol, the API
 * host and the user agent, and whose `validate` checks the identifiers.
 *
 * Fields the library never reassigns are `const`; `page_id` and `organization_id` are
 * reassigned through the client facade, so they are `var`.
 */
module Configuration {
  import opened Wrappers

  const DefaultTimeoutInSeconds: int := 30
  const DefaultApiVersion: string := "v1"
  /** Tuned to stay under the server's own limit. */
  const DefaultMaxRequests: int := 5
  const DefaultWindowSeconds: real := 5.6

  /** The two non-fatal findings of `validate`, in the order it emits them. */
  datatype Warning = MissingPageId | MissingOrganizationId

  /** The outcome of `validate`: it returns `True` with its warnings, or raises `ConfigError`. */
  datatype Validation = Validated(warnings: seq<Warning>) | ConfigError

  class Config {
    const apiKey: Option<string>
    var pageId: Option<string>
    var organizationId: Option<string>
    const verbose: bool
    const timeoutInSeconds: int
    const verifySsl: bool
    const apiVersion: string
    const maxRequests: int
    const windowSeconds: real
    // Fixed by `__post_init__`, whatever the caller passed.
    const protocol: string := "https"
    const apiBaseUrl: string := "api.statuspage.io"
    const userAgent: string

    /**
     * The dataclass constructor followed by `__post_init__`. `packageVersion` is the
     * package's `VERSION` constant, which the user agent embeds.
     */
    constructor (
      packageVersion: string,
      apiKey: Option<string>,
      pageId: Option<string> := None,
      organizationId: Option<string> := None,
      verbose: bool := false,
      timeoutInSeconds: int := DefaultTimeoutInSeconds,
      verifySsl: bool := true,
      apiVersion: string := DefaultApiVersion,
      maxRequests: int := DefaultMaxRequests,
      windowSeconds: real := DefaultWindowSeconds)
      ensures this.apiKey == apiKey && this.pageId == pageId && this.organizationId == organizationId
      ensures this.verbose == verbose && this.timeoutInSeconds == timeoutInSeconds
      ensures this.verifySsl == verifySsl && this.apiVersion == apiVersion
      ensures this.maxRequests == maxRequests && this.windowSeconds == windowSeconds
      ensures protocol == "https" && apiBaseUrl == "api.statuspage.io"
      ensures userAgent == "StatusPage/v1 Python/" + packageVersion
    {
      this.apiKey := apiKey;
      this.pageId := pageId;
      this.organizationId := organizationId;
      this.verbose := verbose;
      this.timeoutInSeconds := timeoutInSeconds;
      this.verifySsl := verifySsl;
      this.apiVersion := apiVersion;
      this.maxRequests := maxRequests;
      this.windowSeconds := windowSeconds;
      userAgent := "StatusPage/v1 Python/" + packageVersion;
    }

    /**
     * `validate`: only a missing API key is fatal (an empty one is accepted); a missing
     * page id or organization id is a warning, page first.
     */
    function Validate(): (v: Validation)
      reads this
      ensures v.ConfigError? <==> apiKey.None?
      ensures v.Validated? ==> (MissingPageId in v.warnings <==> pageId.None?)
      ensures v.Validated? ==> (MissingOrganizationId in v.warnings <==> organizationId.None?)
      ensures v.Validated? ==>
                |v.warnings| == (if pageId.None? then 1 else 0) + (if organizationId.None? then 1 else 0)
      ensures v.Validated? && |v.warnings| == 2 ==> v.warnings[0] == MissingPageId
    {
      if apiKey.None? then ConfigError
      else
        Validated((if pageId.None? then [MissingPageId] else [])
                  + (if organizationId.None? then [MissingOrganizationId] else []))
    }
  }
}
