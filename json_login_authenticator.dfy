/** JsonLoginAuthenticator: which requests the JSON login handles, how it
    reads the credentials, and how authentication failures, missing
    authentication and success become responses. The password check and the
    JWT issuer are parameters. */
module Security {
  import opened Php
  import opened ErrorResponses

  const LoginPath := "/api/auth/login"
  const InvalidJsonMessage := "Invalid JSON"
  const CredentialsRequiredMessage := "'email' and 'password' are required."
  const AuthenticationRequiredMessage := "Authentication required."

  /** The parts of a request the authenticator reads: the path info, the
      HTTP method as sent, and the decoded body. */
  datatype Request = Request(pathInfo: string, httpMethod: string, body: RequestBody)

  /** An authentication failure, with its message: a
      CustomUserMessageAuthenticationException, whoever throws it (authenticate
      does, and so may the credential check), or any other
      AuthenticationException. */
  datatype AuthException = CustomMessage(message: string) | OtherAuthFailure(message: string)

  /** The passport: the user identifier and the plain-text password. */
  datatype Passport = Passport(userIdentifier: string, password: string)

  /** What authenticate does: return a passport, throw an authentication
      exception, or crash with a TypeError (a 500). */
  datatype Attempt = Authenticated(passport: Passport) | Rejected(failure: AuthException) | Crashed

  datatype Result<T> = Ok(value: T) | Err(error: AuthException)

  /** supports: exactly the login path, with the method POST in any case. */
  predicate Supports(r: Request)
  {
    r.pathInfo == LoginPath && Upper(r.httpMethod) == "POST"
  }

  /** authenticate */
  function Authenticate(body: RequestBody): Attempt
  {
    if body.Malformed? then Rejected(CustomMessage(InvalidJsonMessage))
    else
      var email := Coalesce(body.data, "email", Str(""));
      var password := Coalesce(body.data, "password", Str(""));
      if IsEmpty(email) || IsEmpty(password) then Rejected(CustomMessage(CredentialsRequiredMessage))
      else
        match (StringParam(email), StringParam(password))
        case (Passed(e), Passed(p)) => Authenticated(Passport(e, p))
        case _ => Crashed
  }

  /** onAuthenticationFailure: a custom-message failure whose message is
      exactly "Invalid JSON", whoever threw it, is a 400 INVALID_JSON; every
      other failure is a 401 with the failure's message. */
  function OnAuthenticationFailure(failure: AuthException): (r: ErrorResponse)
    ensures Mirrored(r)
  {
    if failure.CustomMessage? && failure.message == InvalidJsonMessage then InvalidJson()
    else Unauthorized(failure.message)
  }

  /** start: the 401 sent when a protected route is hit without credentials. */
  function Start(authException: Option<AuthException>): (r: ErrorResponse)
    ensures Mirrored(r) && r.status == HttpUnauthorized
  {
    Unauthorized(if authException.Some? then authException.value.message else AuthenticationRequiredMessage)
  }

  /** onAuthenticationSuccess: a body holding only the token the JWT issuer
      makes for the user. */
  datatype TokenResponse = TokenResponse(status: int, token: string)

  function OnAuthenticationSuccess<U>(user: U, createJwt: U -> string): (r: TokenResponse)
    ensures r.status == HttpOk
  {
    TokenResponse(HttpOk, createJwt(user))
  }

  /** What the firewall does with a request under this authenticator. */
  datatype LoginResponse =
    | NotHandled                      // supports() was false
    | LoginFailed(error: ErrorResponse)
    | LoginCrashed                    // a TypeError: 500
    | LoggedIn(response: TokenResponse)

  /** The login flow: supports, authenticate, the credential check, then the
      success or failure handler. */
  function HandleLogin<U>(r: Request, check: Passport -> Result<U>, createJwt: U -> string): LoginResponse
  {
    if !Supports(r) then NotHandled
    else
      match Authenticate(r.body)
      case Rejected(failure) => LoginFailed(OnAuthenticationFailure(failure))
      case Crashed => LoginCrashed
      case Authenticated(passport) =>
        match check(passport)
        case Err(failure) => LoginFailed(OnAuthenticationFailure(failure))
        case Ok(user) => LoggedIn(OnAuthenticationSuccess(user, createJwt))
  }

  // ---------------------------------------------------------------------
  // Properties

  /** m spells POST, ignoring ASCII case. */
  predicate SpellsPost(m: string)
  {
    |m| == 4 && LowerChar(m[0]) == 'p' && LowerChar(m[1]) == 'o' && LowerChar(m[2]) == 's' && LowerChar(m[3]) == 't'
  }

  /** supports holds exactly for the login path, character for character,
      with a method that spells POST in any case ("post" included); any other
      path, even one differing by a trailing slash, is not handled. */
  lemma SupportsExactly(r: Request)
    ensures Supports(r) <==> r.pathInfo == LoginPath && SpellsPost(r.httpMethod)
    ensures !Supports(Request(LoginPath + "/", r.httpMethod, r.body))
    ensures Supports(Request(LoginPath, "post", r.body))
  {
    var m := r.httpMethod;
    if Upper(m) == "POST" {
      assert UpperChar(m[0]) == 'P' && UpperChar(m[1]) == 'O' && UpperChar(m[2]) == 'S' && UpperChar(m[3]) == 'T';
    }
    if SpellsPost(m) {
      assert Upper(m)[0] == 'P' && Upper(m)[1] == 'O' && Upper(m)[2] == 'S' && Upper(m)[3] == 'T';
    }
    assert |LoginPath + "/"| != |LoginPath|;
    assert Upper("post") == "POST" by {
      assert Upper("post")[0] == 'P' && Upper("post")[1] == 'O' && Upper("post")[2] == 'S' && Upper("post")[3] == 'T';
    }
  }

  /** A body that is not a JSON array is answered 400 INVALID_JSON. */
  lemma MalformedLoginIsInvalidJson<U>(path: string, httpMethod: string, check: Passport -> Result<U>, createJwt: U -> string)
    requires Supports(Request(path, httpMethod, Malformed))
    ensures Authenticate(Malformed) == Rejected(CustomMessage("Invalid JSON"))
    ensures HandleLogin(Request(path, httpMethod, Malformed), check, createJwt) == LoginFailed(InvalidJson())
  {
  }

  /** A missing, null or PHP-empty email or password ("" and "0" included)
      is rejected with the required-fields message, as a 401, before any
      credential check. */
  lemma EmptyCredentialsAreRejected<U>(r: Request, check: Passport -> Result<U>, createJwt: U -> string)
    requires Supports(r) && r.body.Decoded?
    requires IsEmpty(Coalesce(r.body.data, "email", Str(""))) || IsEmpty(Coalesce(r.body.data, "password", Str("")))
    ensures Authenticate(r.body) == Rejected(CustomMessage("'email' and 'password' are required."))
    ensures HandleLogin(r, check, createJwt) ==
              LoginFailed(Unauthorized("'email' and 'password' are required."))
  {
  }

  /** The string "0" counts as empty, so it can be neither email nor
      password. */
  lemma ZeroStringIsEmpty(data: PhpArray)
    requires Lookup(data, "password") == Some(Str("0"))
    ensures Authenticate(Decoded(data)) == Rejected(CustomMessage(CredentialsRequiredMessage))
  {
  }

  /** Non-empty string credentials reach the passport unchanged. */
  lemma PassportCarriesCredentials(data: PhpArray, email: string, password: string)
    requires Lookup(data, "email") == Some(Str(email)) && Lookup(data, "password") == Some(Str(password))
    requires email != "" && email != "0" && password != "" && password != "0"
    ensures Authenticate(Decoded(data)) == Authenticated(Passport(email, password))
  {
  }

  /** A non-empty array as email or password passes the emptiness test but
      cannot be passed as a string: authenticate crashes. */
  lemma ArrayCredentialCrashes(data: PhpArray, items: seq<Value>)
    requires Lookup(data, "email") == Some(Arr(items)) && items != []
    requires !IsEmpty(Coalesce(data, "password", Str("")))
    ensures Authenticate(Decoded(data)) == Crashed
  {
  }

  /** Only the authenticator's own "Invalid JSON" failure becomes 400; every
      other failure, including another exception with the same message, is
      a 401 UNAUTHORIZED carrying its message verbatim. */
  lemma FailureMapping(failure: AuthException)
    ensures failure == CustomMessage(InvalidJsonMessage) ==>
              IsEnvelope(OnAuthenticationFailure(failure), HttpBadRequest, "INVALID_JSON", "The request content is not a valid JSON.")
    ensures failure != CustomMessage(InvalidJsonMessage) ==>
              IsEnvelope(OnAuthenticationFailure(failure), HttpUnauthorized, "UNAUTHORIZED", failure.message)
    ensures OnAuthenticationFailure(OtherAuthFailure(InvalidJsonMessage)).status == HttpUnauthorized
  {
  }

  /** start reports the exception's message, even an empty one, and the
      default message only when there is no exception. */
  lemma StartMessage(e: AuthException)
    ensures IsEnvelope(Start(None), HttpUnauthorized, "UNAUTHORIZED", "Authentication required.")
    ensures IsEnvelope(Start(Some(e)), HttpUnauthorized, "UNAUTHORIZED", e.message)
  {
  }

  /** A successful login answers 200 with exactly the issuer's token for the
      user the credential check returned. A failed check is a 401 with the
      check's message, unless the check threw a custom-message failure
      reading "Invalid JSON", which is a 400 INVALID_JSON. */
  lemma LoginOutcome<U>(r: Request, check: Passport -> Result<U>, createJwt: U -> string, p: Passport)
    requires Supports(r) && Authenticate(r.body) == Authenticated(p)
    ensures check(p).Ok? ==>
              HandleLogin(r, check, createJwt) == LoggedIn(TokenResponse(HttpOk, createJwt(check(p).value)))
    ensures check(p).Err? && check(p).error != CustomMessage(InvalidJsonMessage) ==>
              HandleLogin(r, check, createJwt) == LoginFailed(Unauthorized(check(p).error.message))
    ensures check(p) == Err(CustomMessage(InvalidJsonMessage)) ==>
              HandleLogin(r, check, createJwt) == LoginFailed(InvalidJson())
  {
  }
}
