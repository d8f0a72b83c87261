/**
 * The bearer-token guard of the internal endpoints. Signature and expiry
 * checking are opaque: `decodeAccessToken` yields the token's subject, or
 * None for an invalid or expired token.
 */
module Dependencies {
  import opened Common
  import opened Config
  import Auth

  const INVALID_TOKEN := HttpError(HTTP_401_UNAUTHORIZED, "Invalid or expired token")

  /** `get_current_user`: the request passes only if the token's subject is the internal user. */
  function GetCurrentUser(token: string, user: InternalUser,
                          decodeAccessToken: string -> Option<string>): (r: Result<string>)
    ensures decodeAccessToken(token).None? ==> r == Err(INVALID_TOKEN)
    ensures r.Ok? <==> decodeAccessToken(token) == Some(user.username)
    ensures r.Ok? ==> r.value == user.username
    ensures r.Err? ==> r.error == INVALID_TOKEN
  {
    var username := decodeAccessToken(token);
    if username.None? || username.value != user.username then Err(INVALID_TOKEN)
    else Ok(username.value)
  }

  /**
   * A token issued by a successful login is accepted, for the same user,
   * as long as decoding recovers the subject a token was created for.
   */
  lemma IssuedTokenAccepted(body: Auth.LoginRequest, user: InternalUser,
                            verifyPassword: (string, string) -> bool,
                            createAccessToken: string -> string,
                            decodeAccessToken: string -> Option<string>)
    requires Auth.Login(body, user, verifyPassword, createAccessToken).Ok?
    requires decodeAccessToken(createAccessToken(user.username)) == Some(user.username)
    ensures GetCurrentUser(Auth.Login(body, user, verifyPassword, createAccessToken).value.accessToken,
                           user, decodeAccessToken) == Ok(body.username)
  {
  }
}
