/** The request gates placed in front of handlers: a rate limiter and two
    role checks on the session user. A gate holds no state of its own; it
    reads the session value and either lets the request continue or aborts
    it with a status. */
module Middleware {
  import opened Common
  import opened Models
  import opened Http

  datatype Verdict = Continue | Abort(status: int)

  /** RateLimiter: allow is what the token bucket's Allow() answers. */
  function RateLimiter(allow: bool): (v: Verdict)
    ensures v.Continue? <==> allow
    ensures v.Abort? ==> v.status == 429
  {
    if allow then Continue else Abort(429)
  }

  /** The decision shared by CheckAdmin and CheckStaff, for the role the
      gate demands. */
  function RoleGate(value: SessionValue, role: string): (v: Verdict)
    ensures v.Continue? <==> value.UserSession? && value.user.role == role
    ensures v.Abort? ==> v.status == 401 || v.status == 403
    ensures v == Abort(401) <==> !value.UserSession?
    ensures v == Abort(403) <==> value.UserSession? && value.user.role != role
  {
    match value
    case NoUser => Abort(401)
    case OtherValue => Abort(401)
    case UserSession(u) => if u.role != role then Abort(403) else Continue
  }

  function CheckAdmin(value: SessionValue): Verdict
  {
    RoleGate(value, "admin")
  }

  function CheckStaff(value: SessionValue): Verdict
  {
    RoleGate(value, "staff")
  }

  /** The two role gates agree on every request without a user in the
      session (401, never 403) and differ only in the role they admit. */
  lemma GatesAgreeWithoutUser(value: SessionValue)
    requires !value.UserSession?
    ensures CheckAdmin(value) == CheckStaff(value) == Abort(401)
  {
  }

  /** "staff" is not a role the users table can hold, so a session holding
      the projection of any stored user is turned away by CheckStaff. */
  lemma NoStoredUserPassesCheckStaff(db: Db, u: User)
    requires DbValid(db)
    requires u in db.users
    ensures CheckStaff(UserSession(ToResponse(u))) == Abort(403)
  {
    var i :| 0 <= i < |db.users| && db.users[i] == u;
    assert StorableRole(db.users[i].role);
  }

  /** A stored user passes CheckAdmin exactly when their role is admin. */
  lemma StoredUserPassesCheckAdmin(db: Db, u: User)
    requires u in db.users
    ensures CheckAdmin(UserSession(ToResponse(u))).Continue? <==> u.role == "admin"
  {
  }

  /** Running a gate writes its abort status and leaves the session alone. */
  method ApplyGate(v: Verdict, ctx: Context, sess: Session)
    modifies ctx
    ensures v.Continue? ==> ctx.status == old(ctx.status) && ctx.aborted == old(ctx.aborted)
    ensures v.Abort? ==> ctx.status == Written(old(ctx.status), v.status) && ctx.aborted
    ensures sess.value == old(sess.value)
  {
    if v.Abort? {
      ctx.AbortWithStatusJSON(v.status);
    }
  }
}
