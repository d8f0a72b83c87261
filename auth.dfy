/**
 * The `/auth/login` endpoint: an ordered chain of guards over the internal
 * user's settings. Password hashing and token signing are opaque; they are
 * the `verifyPassword` and `createAccessToken` parameters.
 */
module Auth {
  import opened Common
  import opened Config

  datatype LoginRequest = LoginRequest(username: string, password: string)

  datatype LoginResponse = LoginResponse(accessToken: string, tokenType: string)

  const BEARER := "bearer"

  const INVALID_CREDENTIALS := HttpError(HTTP_401_UNAUTHORIZED, "Invalid credentials")
  const NOT_CONFIGURED := HttpError(HTTP_401_UNAUTHORIZED, "Internal user not configured")

  /**
   * `login`: the username is checked first, then that a password hash is
   * configured, then the password; only when all three pass is a token
   * issued, for the supplied (hence the configured) username.
   */
  function Login(body: LoginRequest, user: InternalUser,
                 verifyPassword: (string, string) -> bool,
                 createAccessToken: string -> string): (r: Result<LoginResponse>)
    ensures body.username != user.username ==> r == Err(INVALID_CREDENTIALS)
    ensures body.username == user.username && user.passwordHash == [] ==> r == Err(NOT_CONFIGURED)
    ensures (body.username == user.username && user.passwordHash != []
             && !verifyPassword(body.password, user.passwordHash)) ==> r == Err(INVALID_CREDENTIALS)
    ensures r.Ok? <==> body.username == user.username && user.passwordHash != []
                       && verifyPassword(body.password, user.passwordHash)
    ensures r.Ok? ==> r.value == LoginResponse(createAccessToken(user.username), BEARER)
    ensures r.Err? ==> r.error.status == HTTP_401_UNAUTHORIZED
  {
    if body.username != user.username then Err(INVALID_CREDENTIALS)
    else if user.passwordHash == [] then Err(NOT_CONFIGURED)
    else if !verifyPassword(body.password, user.passwordHash) then Err(INVALID_CREDENTIALS)
    else Ok(LoginResponse(createAccessToken(body.username), BEARER))
  }

  /**
   * Under the default settings (no password hash) nobody can log in: the
   * configured username is told the user is not configured, anyone else
   * that the credentials are invalid.
   */
  lemma DefaultSettingsRefuseEveryone(body: LoginRequest, verifyPassword: (string, string) -> bool,
                                      createAccessToken: string -> string)
    ensures Login(body, DEFAULT_INTERNAL_USER, verifyPassword, createAccessToken).Err?
    ensures body.username == INTERNAL_USER_USERNAME ==>
              Login(body, DEFAULT_INTERNAL_USER, verifyPassword, createAccessToken) == Err(NOT_CONFIGURED)
  {
  }

  /**
   * The outcome does not depend on the password when the username is wrong,
   * nor on anything but the verifier's verdict otherwise.
   */
  lemma PasswordMattersOnlyThroughVerifier(body1: LoginRequest, body2: LoginRequest, user: InternalUser,
                                           verifyPassword: (string, string) -> bool,
                                           createAccessToken: string -> string)
    requires body1.username == body2.username
    requires body1.username != user.username
             || verifyPassword(body1.password, user.passwordHash) == verifyPassword(body2.password, user.passwordHash)
    ensures Login(body1, user, verifyPassword, createAccessToken) == Login(body2, user, verifyPassword, createAccessToken)
  {
  }
}
