/** The middleware that turns off CSRF enforcement for the API: the request's flag is set for
    paths under "/api/" and nothing else about the request changes. */
module Middleware {
  import opened Wrappers
  import opened Strings

  /** The part of a Django request the middleware touches. */
  class Request {
    const path: string
    var dontEnforceCsrfChecks: bool
    var httpMethod: string

    constructor (path: string, httpMethod: string)
      ensures this.path == path && this.httpMethod == httpMethod && !dontEnforceCsrfChecks
    {
      this.path := path;
      this.httpMethod := httpMethod;
      dontEnforceCsrfChecks := false;
    }
  }

  /** The prefix rule: the path must start with "/api/", slash included. */
  predicate Exempt(path: string) {
    StartsWith(path, "/api/")
  }

  /** "/api" alone and look-alike prefixes are not exempt; anything below "/api/" is. */
  lemma {:induction false} ExemptPaths(rest: string)
    ensures Exempt("/api/" + rest)
    ensures !Exempt("/api") && !Exempt("/apix/") && !Exempt("/API/") && !Exempt("api/")
  {
    assert ("/api/" + rest)[..5] == "/api/";
    assert "/apix/"[..5][4] != "/api/"[4];
    assert "/API/"[..5][1] != "/api/"[1];
    assert "api/"[..4] != "/api/"[..4];
  }

  datatype Response = Response(status: int)

  /** `DisableCSRFForAPIMiddleware.process_request`: sets the flag on an API path, leaves every
      other attribute alone, and returns None so the request goes on. */
  method ProcessRequest(request: Request) returns (response: Option<Response>)
    modifies request
    ensures response.None?
    ensures Exempt(request.path) ==> request.dontEnforceCsrfChecks
    ensures !Exempt(request.path) ==> request.dontEnforceCsrfChecks == old(request.dontEnforceCsrfChecks)
    ensures request.httpMethod == old(request.httpMethod)
  {
    if StartsWith(request.path, "/api/") {
      request.dontEnforceCsrfChecks := true;
    }
    return None;
  }
}
