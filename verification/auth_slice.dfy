/** The authentication slice of the Redux store: the session token and the
    signed-in user, with the browser's local storage as a map field. */
module AuthSlice {
  import opened Text

  /** The user record the login response carries, kept as it arrives. */
  type User = map<string, string>

  /** The local-storage key the token is kept under. */
  const TokenKey := "authToken"

  /** The slice's state, `{ token, user }`; null is written None. */
  datatype AuthState = AuthState(token: Option<string>, user: Option<User>)

  /** The slice's state together with the local storage it reads and clears. */
  datatype Session = Session(auth: AuthState, storage: map<string, string>)

  /** `localStorage.getItem('authToken') || null`: a missing entry and an
      empty one both give null. */
  function StoredToken(storage: map<string, string>): (t: Option<string>)
    ensures t.Some? <==> TokenKey in storage && storage[TokenKey] != ""
    ensures t.Some? ==> t.value == storage[TokenKey]
  {
    if TokenKey in storage && storage[TokenKey] != "" then Some(storage[TokenKey]) else None
  }

  /** What `logout` does to a session, as a function of the session before. */
  function LoggedOut(s: Session): (r: Session)
    ensures r.auth.token.None? && r.auth.user.None?
    ensures TokenKey !in r.storage
    ensures forall k :: k in s.storage && k != TokenKey ==> k in r.storage && r.storage[k] == s.storage[k]
    ensures forall k :: k in r.storage ==> k in s.storage
  {
    Session(AuthState(None, None), s.storage - {TokenKey})
  }

  /** What `setCredentials` does to a session. */
  function WithCredentials(s: Session, token: Option<string>, user: Option<User>): (r: Session)
    ensures r.auth.token == token && r.auth.user == user && r.storage == s.storage
  {
    Session(AuthState(token, user), s.storage)
  }

  /** Logging out twice is logging out once. */
  lemma LogoutIdempotent(s: Session)
    ensures LoggedOut(LoggedOut(s)) == LoggedOut(s)
  {
  }

  /** Whatever credentials were set, logging out afterwards ends in the
      same session as logging out straight away. */
  lemma CredentialsThenLogout(s: Session, token: Option<string>, user: Option<User>)
    ensures LoggedOut(WithCredentials(s, token, user)) == LoggedOut(s)
  {
  }

  class AuthStore {
    var token: Option<string>
    var user: Option<User>
    /** The browser's local storage. */
    var storage: map<string, string>

    function Snapshot(): Session
      reads this
    {
      Session(AuthState(token, user), storage)
    }

    /** The initial state: the stored token, or null, and no user. */
    constructor (storage0: map<string, string>)
      ensures token == StoredToken(storage0) && user.None? && storage == storage0
    {
      token := StoredToken(storage0);
      user := None;
      storage := storage0;
    }

    /** `setCredentials({ token, user })`. */
    method SetCredentials(newToken: Option<string>, newUser: Option<User>)
      modifies this`token, this`user
      ensures Snapshot() == WithCredentials(old(Snapshot()), newToken, newUser)
    {
      token := newToken;
      user := newUser;
    }

    /** `logout()`: both fields become null and the stored token is removed. */
    method Logout()
      modifies this
      ensures Snapshot() == LoggedOut(old(Snapshot()))
    {
      token := None;
      user := None;
      storage := storage - {TokenKey};
    }
  }
}
