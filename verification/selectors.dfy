/** The selectors that read the authentication slice out of the store. */
module Selectors {
  import opened Text
  import opened AuthSlice

  /** The part of the root state the selectors read. */
  datatype RootState = RootState(auth: AuthState)

  /** `selectAuthToken`. */
  function SelectAuthToken(state: RootState): (t: Option<string>)
    ensures t == state.auth.token
  {
    state.auth.token
  }

  /** `!!state.auth.token`: JavaScript truthiness of the token, which is
      false for null and for the empty string. */
  predicate SelectIsAuthenticated(state: RootState)
    ensures SelectIsAuthenticated(state) <==> state.auth.token != None && state.auth.token != Some("")
  {
    match state.auth.token
    case None => false
    case Some(t) => |t| > 0
  }

  /** `selectUser`. */
  function SelectUser(state: RootState): (u: Option<User>)
    ensures u == state.auth.user
  {
    state.auth.user
  }

  /** The session counts as authenticated exactly when there is a non-empty
      token. */
  lemma AuthenticatedIffToken(state: RootState)
    ensures SelectIsAuthenticated(state) <==> state.auth.token.Some? && state.auth.token.value != ""
  {
  }

  /** Right after start-up, the session is authenticated exactly when local
      storage holds a non-empty token. */
  lemma InitiallyAuthenticatedIffStored(storage: map<string, string>)
    ensures SelectIsAuthenticated(RootState(AuthState(StoredToken(storage), None)))
        <==> TokenKey in storage && storage[TokenKey] != ""
  {
  }

  /** After `logout`, no session is authenticated. */
  lemma LoggedOutIsNotAuthenticated(s: Session)
    ensures !SelectIsAuthenticated(RootState(LoggedOut(s).auth))
  {
  }

  /** After `setCredentials` with a non-empty token, the session is
      authenticated. */
  lemma CredentialsAuthenticate(s: Session, token: string, user: Option<User>)
    requires token != ""
    ensures SelectIsAuthenticated(RootState(WithCredentials(s, Some(token), user).auth))
  {
  }
}
