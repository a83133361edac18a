/** The client's session store: the current user, restored by the probe at
    start-up and replaced by a successful log in. Being logged in means
    having a current user. */
module ClientAuth {
  import opened Common
  import opened Models
  import opened Http
  import AuthHandlers

  /** The user checkAuthRequest resolves to: the reply's user when the reply
      carries a message, which the probe handler puts only on its 200 reply. */
  function ProbeResult(status: Option<int>, user: Option<UserResponse>): (r: Option<UserResponse>)
    ensures r.Some? ==> status == Some(200) && r == user
  {
    if status == Some(200) then user else None
  }

  /** The user the log in reply hands over, if it is ok and carries a
      success member: only the login handler's 200 reply does, with the
      projection it saves in the session. */
  function LoginResult(status: Option<int>, value: SessionValue): (r: Option<UserResponse>)
    ensures r.Some? ==> status == Some(200) && value == UserSession(r.value)
  {
    if status == Some(200) && value.UserSession? then Some(value.user) else None
  }

  class AuthStore {
    var currentUser: Option<UserResponse>

    /** The provider mounts with no current user. */
    constructor ()
      ensures currentUser.None?
    {
      currentUser := None;
    }

    function IsLoggedIn(): bool
      reads this
    {
      currentUser.Some?
    }

    /** The mount effect: the probe's result, or nothing, becomes the current user. */
    method StartupProbe(res: Option<UserResponse>)
      modifies this
      ensures currentUser == res
    {
      if res.Some? {
        currentUser := res;
      } else {
        currentUser := None;
      }
    }

    /** login: an ok reply with a success member replaces the current user;
        anything else raises the failure alert and keeps it. */
    method Login(ok: bool, success: Option<UserResponse>) returns (alerted: bool)
      modifies this
      ensures ok && success.Some? ==> currentUser == success && !alerted
      ensures !(ok && success.Some?) ==> currentUser == old(currentUser) && alerted
    {
      if ok && success.Some? {
        currentUser := success;
        alerted := false;
      } else {
        alerted := true;
      }
    }
  }

  /** A page load: the client mounts, probes the server, and ends logged in
      exactly when the cookie session holds a user, as that user. */
  method RestoreSession(sess: Session) returns (auth: AuthStore)
    ensures fresh(auth)
    ensures auth.IsLoggedIn() <==> sess.value.UserSession?
    ensures sess.value.UserSession? ==> auth.currentUser == Some(sess.value.user)
  {
    auth := new AuthStore();
    var ctx := new Context();
    var user := AuthHandlers.Probe(ctx, sess);
    auth.StartupProbe(ProbeResult(ctx.status, user));
  }

  /** A log in from the login form against the login handler: the client
      raises no alert exactly when the server admits the request and saves
      the session, and then its current user is the session's user. */
  method SignIn(store: Store, sess: Session, auth: AuthStore, req: Option<AuthHandlers.AuthRequest>, now: Instant, saveOk: bool)
    returns (alerted: bool)
    modifies store, sess, auth
    ensures !alerted <==> req.Some? && AuthHandlers.LoginMatch(old(store.db), req.value).Some? && saveOk
    ensures !alerted ==> auth.currentUser.Some? && sess.value == UserSession(auth.currentUser.value)
    ensures alerted ==> auth.currentUser == old(auth.currentUser)
  {
    var ctx := new Context();
    AuthHandlers.Login(store, ctx, sess, req, now, saveOk);
    var success := LoginResult(ctx.status, sess.value);
    alerted := auth.Login(ctx.status == Some(200), success);
  }
}
