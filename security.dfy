/** Session CSRF tokens (server/utils/security.ts): a token is created once
    per session, and a state-changing request without an API key must echo
    it in the `x-csrf-token` header. */
module Security {
  import opened Wrappers
  import opened DocumentStore

  const CsrfHeaderName := "x-csrf-token"
  const AuthorizationHeader := "authorization"

  /** The express session; `csrfToken` is absent until first set. */
  class Session {
    var csrfToken: Option<string>

    constructor(token: Option<string>)
      ensures csrfToken == token
    {
      csrfToken := token;
    }
  }

  /** The parts of the express response the key check writes: the status code
      and the `error` of the JSON body. */
  class Response {
    var status: Option<int>
    var error: Option<string>

    constructor()
      ensures status == None && error == None
    {
      status := None;
      error := None;
    }
  }

  /** A request header by its lower-case name. */
  function Header(headers: map<string, string>, name: string): (r: Option<string>)
    ensures r.Some? <==> name in headers
    ensures r.Some? ==> r.value == headers[name]
  {
    if name in headers then Some(headers[name]) else None
  }

  // ---------------------------------------------------------------------
  // ensureSessionCsrfToken

  /** The token a session holds after `ensureSessionCsrfToken`: a truthy
      token is kept, otherwise the hex text of the random bytes. */
  function EnsuredToken(token: Option<string>, randomBytes: seq<bv8>): (r: Option<string>)
    ensures Given(token) ==> r == token
    ensures !Given(token) ==> r == Some(Hex(randomBytes)) && |r.value| == 2 * |randomBytes|
  {
    if Given(token) then token else Some(Hex(randomBytes))
  }

  /** Once a session has a token, calling again keeps it, whatever random
      bytes the second call draws. */
  lemma EnsureIsIdempotent(token: Option<string>, first: seq<bv8>, second: seq<bv8>)
    requires |first| > 0
    ensures Given(EnsuredToken(token, first))
    ensures EnsuredToken(EnsuredToken(token, first), second) == EnsuredToken(token, first)
  {
    if !Given(token) {
      assert |Hex(first)| == 2 * |first|;
    }
  }

  /** `ensureSessionCsrfToken`: no session is an error; a missing or empty
      token is replaced by a fresh one; the session's token is returned. */
  method EnsureSessionCsrfToken(session: Session?, randomBytes: seq<bv8>) returns (r: Outcome<string>)
    modifies session
    ensures session == null ==> r == Failure("Session is not initialized")
    ensures session != null ==>
      session.csrfToken == EnsuredToken(old(session.csrfToken), randomBytes) &&
      r == Success(session.csrfToken.value)
  {
    if session == null {
      return Failure("Session is not initialized");
    }
    if !Given(session.csrfToken) {
      session.csrfToken := Some(Hex(randomBytes));
    }
    r := Success(session.csrfToken.value);
  }

  // ---------------------------------------------------------------------
  // validateSessionCsrf

  datatype Verdict = Accept | Reject(error: string)

  /** The decision of `validateSessionCsrf`, given the Authorization header,
      the session's token (absent when there is no session) and the
      `x-csrf-token` header. */
  function CsrfVerdict(authorization: Option<string>, sessionToken: Option<string>, header: Option<string>): (v: Verdict)
    ensures Given(authorization) ==> v == Accept
    ensures !Given(authorization) && !Given(sessionToken) ==> v == Reject("Missing CSRF token")
    ensures !Given(authorization) && Given(sessionToken) ==>
      (v == Accept <==> header == sessionToken) &&
      (v != Accept ==> v == Reject("Invalid CSRF token"))
  {
    if Given(authorization) then Accept
    else if !Given(sessionToken) then Reject("Missing CSRF token")
    else if !Given(header) || header != sessionToken then Reject("Invalid CSRF token")
    else Accept
  }

  /** After `ensureSessionCsrfToken`, a request without an API key passes
      exactly when it echoes the session's token. */
  lemma OnlyTheEnsuredTokenPasses(token: Option<string>, randomBytes: seq<bv8>, header: Option<string>)
    requires |randomBytes| > 0
    ensures CsrfVerdict(None, EnsuredToken(token, randomBytes), header) == Accept <==>
      header == EnsuredToken(token, randomBytes)
  {
    EnsureIsIdempotent(token, randomBytes, randomBytes);
  }

  /** An API key in the Authorization header passes whatever the tokens. */
  lemma AuthorizationSkipsCsrf(key: string, sessionToken: Option<string>, header: Option<string>)
    requires key != ""
    ensures CsrfVerdict(Some(key), sessionToken, header) == Accept
  {
  }

  /** `validateSessionCsrf`: a rejection answers 403 with the error; an
      accepted request leaves the response alone. */
  method ValidateSessionCsrf(headers: map<string, string>, session: Session?, res: Response) returns (ok: bool)
    modifies res
    ensures var v := CsrfVerdict(Header(headers, AuthorizationHeader),
                                 if session == null then None else session.csrfToken,
                                 Header(headers, CsrfHeaderName));
      (ok <==> v == Accept) &&
      (v == Accept ==> res.status == old(res.status) && res.error == old(res.error)) &&
      (v != Accept ==> res.status == Some(403) && res.error == Some(v.error))
  {
    if Given(Header(headers, AuthorizationHeader)) {
      return true;
    }
    if session == null || !Given(session.csrfToken) {
      res.status, res.error := Some(403), Some("Missing CSRF token");
      return false;
    }
    var headerValue := Header(headers, CsrfHeaderName);
    if !Given(headerValue) || headerValue != session.csrfToken {
      res.status, res.error := Some(403), Some("Invalid CSRF token");
      return false;
    }
    return true;
  }
}
