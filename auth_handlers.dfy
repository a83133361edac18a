/** Log in, session probe, password change, registration by an admin, user
    deletion and log out. Each handler reads the session value and an
    already-bound request body (None when binding failed), changes the
    store and the session, and writes one status. */
module AuthHandlers {
  import opened Common
  import opened Models
  import opened Http
  import opened Endpoints

  datatype AuthRequest = AuthRequest(email: string, password: string, remember: bool, role: string)

  datatype RegisterRequest = RegisterRequest(
    email: string, firstName: string, lastName: string, password: string, role: string)

  datatype PasswordChangeRequest = PasswordChangeRequest(oldPassword: string, newPassword: string)

  // ---------------------------------------------------------------------
  // Login
  // ---------------------------------------------------------------------

  /** The row Login reads: the first user with that email, or the zero
      value GORM leaves in place when none matches. */
  function LookupByEmail(db: Db, email: string): (u: User)
    ensures HasKey(db.users, UserEmail, email) ==> u in db.users && u.email == email
    ensures !HasKey(db.users, UserEmail, email) ==> u == ZeroUser
  {
    match First(db.users, UserEmail, email)
    case Some(u) => u
    case None => ZeroUser
  }

  /** The user a login request is admitted as, if any: the looked-up row,
      when the password matches its digest and the claimed role is its role. */
  function LoginMatch(db: Db, req: AuthRequest): Option<User>
  {
    var u := LookupByEmail(db, req.email);
    if CheckPasswordHash(req.password, u.password) && u.role == req.role then Some(u) else None
  }

  /** Login admits a request exactly when some stored user has the
      request's email, role and password, and then as that user. */
  lemma LoginMatchSpec(db: Db, req: AuthRequest)
    requires UsersValid(db.users)
    ensures LoginMatch(db, req).Some? <==>
              exists u :: u in db.users && u.email == req.email && u.password == Hash(req.password) && u.role == req.role
    ensures LoginMatch(db, req).Some? ==>
              var u := LoginMatch(db, req).value;
              u in db.users && u.email == req.email && u.password == Hash(req.password) && u.role == req.role
  {
    if u :| u in db.users && u.email == req.email && u.password == Hash(req.password) && u.role == req.role {
      FirstUnique(db.users, UserEmail, u);
    }
  }

  function StampLogin(now: Instant): User -> User
  {
    (u: User) => u.(lastLogin := Some(now))
  }

  /** LoginHandler. now is the clock reading and saveOk whether the session
      cookie could be written. The last-login stamp is written before the
      session is saved, so it stays even when saving fails. */
  method Login(store: Store, ctx: Context, sess: Session, req: Option<AuthRequest>, now: Instant, saveOk: bool)
    modifies store, ctx, sess
    ensures req.None? ==>
              ctx.status == Written(old(ctx.status), 400) && store.db == old(store.db) && sess.value == old(sess.value)
    ensures req.Some? && LoginMatch(old(store.db), req.value).None? ==>
              ctx.status == Written(old(ctx.status), 401) && store.db == old(store.db) && sess.value == old(sess.value)
    ensures req.Some? && LoginMatch(old(store.db), req.value).Some? ==>
              var u := LoginMatch(old(store.db), req.value).value;
              store.db == old(store.db).(users := UpdateWhere(old(store.db).users, UserIs(u.id), StampLogin(now))) &&
              ctx.status == Written(old(ctx.status), if saveOk then 200 else 500) &&
              sess.value == (if saveOk then UserSession(ToResponse(u.(lastLogin := Some(now)))) else old(sess.value))
    ensures DbValid(old(store.db)) ==> DbValid(store.db)
  {
    if req.None? {
      ctx.JSON(400);
      return;
    }
    var user := LookupByEmail(store.db, req.value.email);
    var hashMatched := CheckPasswordHash(req.value.password, user.password);
    if !hashMatched || user.role != req.value.role {
      ctx.JSON(401);
      return;
    }
    Admit(store, ctx, sess, user, now, saveOk);
  }

  /** The admitted half of LoginHandler: stamp the last login, then save
      the session (500 when that fails) and answer 200. */
  method Admit(store: Store, ctx: Context, sess: Session, user: User, now: Instant, saveOk: bool)
    modifies store, ctx, sess
    ensures store.db == old(store.db).(users := UpdateWhere(old(store.db).users, UserIs(user.id), StampLogin(now)))
    ensures ctx.status == Written(old(ctx.status), if saveOk then 200 else 500)
    ensures sess.value == (if saveOk then UserSession(ToResponse(user.(lastLogin := Some(now)))) else old(sess.value))
    ensures DbValid(old(store.db)) ==> DbValid(store.db)
  {
    if DbValid(store.db) {
      UpdateUsersValid(store.db, UserIs(user.id), StampLogin(now));
    }
    store.db := store.db.(users := UpdateWhere(store.db.users, UserIs(user.id), StampLogin(now)));
    var resUser := ToResponse(user.(lastLogin := Some(now)));
    if !saveOk {
      ctx.AbortWithStatusJSON(500);
      return;
    }
    sess.value := UserSession(resUser);
    ctx.JSON(200);
  }

  // ---------------------------------------------------------------------
  // Session probe
  // ---------------------------------------------------------------------

  /** AuthHandler: 401 without a session user, 500 for a value of another
      type, otherwise 200 with the session user. */
  method Probe(ctx: Context, sess: Session) returns (user: Option<UserResponse>)
    modifies ctx
    ensures sess.value.NoUser? ==> ctx.status == Written(old(ctx.status), 401) && user.None?
    ensures sess.value.OtherValue? ==> ctx.status == Written(old(ctx.status), 500) && user.None?
    ensures sess.value.UserSession? ==> ctx.status == Written(old(ctx.status), 200) && user == Some(sess.value.user)
  {
    match sess.value
    case NoUser =>
      ctx.JSON(401);
      return None;
    case OtherValue =>
      ctx.JSON(500);
      return None;
    case UserSession(u) =>
      ctx.JSON(200);
      return Some(u);
  }

  // ---------------------------------------------------------------------
  // Password change
  // ---------------------------------------------------------------------

  /** The status ChangePasswordHandler answers with; hashOk is whether
      bcrypt could hash the new password. */
  function ChangePasswordStatus(db: Db, value: SessionValue, req: Option<PasswordChangeRequest>, hashOk: bool): int
  {
    if !value.UserSession? then 401
    else if req.None? then 400
    else
      match First(db.users, UserKey, value.user.id)
      case None => 500
      case Some(current) =>
        if !CheckPasswordHash(req.value.oldPassword, current.password) then 401
        else if req.value.oldPassword == req.value.newPassword then 400
        else if !hashOk then 500
        else 200
  }

  /** A password change is accepted exactly when the session user still has
      a row, the old password is that row's password, the new one differs
      from it and can be hashed. A repeated password is refused even when
      the old password is right. */
  lemma ChangePasswordAccepted(db: Db, value: SessionValue, req: Option<PasswordChangeRequest>, hashOk: bool)
    requires IdsAscending(db.users, UserKey)
    ensures ChangePasswordStatus(db, value, req, hashOk) == 200 <==>
              value.UserSession? && req.Some? && hashOk &&
              req.value.oldPassword != req.value.newPassword &&
              exists u :: u in db.users && u.id == value.user.id && u.password == Hash(req.value.oldPassword)
    ensures req.Some? && req.value.oldPassword == req.value.newPassword ==> ChangePasswordStatus(db, value, req, hashOk) != 200
  {
    if value.UserSession? && req.Some? {
      if u :| u in db.users && u.id == value.user.id && u.password == Hash(req.value.oldPassword) {
        IdsAscendingKeysDistinct(db.users, UserKey);
        FirstUnique(db.users, UserKey, u);
      }
    }
  }

  function SetPassword(p: Secret): User -> User
  {
    (u: User) => u.(password := p)
  }

  /** The users table after the password of user id is set to the digest of p. */
  function WithPassword(db: Db, id: nat, p: string): Db
  {
    db.(users := UpdateWhere(db.users, UserIs(id), SetPassword(Hash(p))))
  }

  /** Setting a password keeps the store valid and changes no other column. */
  lemma WithPasswordValid(db: Db, id: nat, p: string)
    requires DbValid(db)
    ensures DbValid(WithPassword(db, id, p))
    ensures forall i :: 0 <= i < |db.users| ==>
              WithPassword(db, id, p).users[i].(password := db.users[i].password) == db.users[i]
  {
    UpdateUsersValid(db, UserIs(id), SetPassword(Hash(p)));
  }

  /** ChangePasswordHandler. */
  method ChangePassword(store: Store, ctx: Context, sess: Session, req: Option<PasswordChangeRequest>, hashOk: bool)
    modifies store, ctx
    ensures ctx.status == Written(old(ctx.status), ChangePasswordStatus(old(store.db), sess.value, req, hashOk))
    ensures ChangePasswordStatus(old(store.db), sess.value, req, hashOk) == 200 ==>
              store.db == WithPassword(old(store.db), sess.value.user.id, req.value.newPassword)
    ensures ChangePasswordStatus(old(store.db), sess.value, req, hashOk) != 200 ==> store.db == old(store.db)
  {
    if !sess.value.UserSession? {
      ctx.JSON(401);
      return;
    }
    var sessionUser := sess.value.user;
    if req.None? {
      ctx.JSON(400);
      return;
    }
    var currentUser := First(store.db.users, UserKey, sessionUser.id);
    if currentUser.None? {
      ctx.JSON(500);
      return;
    }
    if !CheckPasswordHash(req.value.oldPassword, currentUser.value.password) {
      ctx.JSON(401);
      return;
    }
    if req.value.oldPassword == req.value.newPassword {
      ctx.JSON(400);
      return;
    }
    if !hashOk {
      ctx.JSON(500);
      return;
    }
    store.db := WithPassword(store.db, sessionUser.id, req.value.newPassword);
    ctx.JSON(200);
  }

  /** A stored user logs in with the password their row holds the hash
      of, and with no other. */
  lemma LoginWithStoredPassword(db: Db, u: User, p: string, q: string, remember: bool)
    requires UsersValid(db.users)
    requires u in db.users && u.password == Hash(p) && p != q
    ensures LoginMatch(db, AuthRequest(u.email, p, remember, u.role)).Some?
    ensures LoginMatch(db, AuthRequest(u.email, q, remember, u.role)).None?
  {
    LoginMatchSpec(db, AuthRequest(u.email, p, remember, u.role));
    LoginMatchSpec(db, AuthRequest(u.email, q, remember, u.role));
    var i :| 0 <= i < |db.users| && db.users[i] == u;
    forall v | v in db.users && v.email == u.email ensures v == u {
      var j :| 0 <= j < |db.users| && db.users[j] == v;
      assert UserEmail(db.users[j]) == UserEmail(db.users[i]);
    }
  }

  /** After a password change the user logs in with the new password and no
      longer with the old one; their email and role are unchanged. */
  lemma LoginAfterPasswordChange(db: Db, u: User, oldPassword: string, newPassword: string, remember: bool)
    requires DbValid(db)
    requires u in db.users && u.password == Hash(oldPassword) && oldPassword != newPassword
    ensures LoginMatch(WithPassword(db, u.id, newPassword), AuthRequest(u.email, newPassword, remember, u.role)).Some?
    ensures LoginMatch(WithPassword(db, u.id, newPassword), AuthRequest(u.email, oldPassword, remember, u.role)).None?
  {
    var db' := WithPassword(db, u.id, newPassword);
    WithPasswordValid(db, u.id, newPassword);
    var i :| 0 <= i < |db.users| && db.users[i] == u;
    var u' := u.(password := Hash(newPassword));
    assert db'.users[i] == u';
    LoginWithStoredPassword(db', u', newPassword, oldPassword, remember);
  }

  // ---------------------------------------------------------------------
  // Registration
  // ---------------------------------------------------------------------

  /** The row RegisterHandler asks to insert: the request's columns, the
      registration instant the column default supplies, no login yet and
      no avatar. */
  function NewUserRow(req: RegisterRequest, now: Instant): (u: User)
    ensures u.password.Plain? && u.lastLogin.None? && u.avatar.None?
  {
    User(0, req.email, req.firstName, req.lastName, Plain(req.password), req.role, now, None, None)
  }

  /** RegisterHandler: admins only (401), a body that binds (400), then the
      insert (500 when it fails: duplicate email, role outside the check
      list, or a hashing failure). */
  method Register(store: Store, ctx: Context, sess: Session, req: Option<RegisterRequest>, now: Instant, hashOk: bool)
    modifies store, ctx
    ensures !(sess.value.UserSession? && sess.value.user.role == "admin") ==>
              ctx.status == Written(old(ctx.status), 401) && store.db == old(store.db)
    ensures sess.value.UserSession? && sess.value.user.role == "admin" && req.None? ==>
              ctx.status == Written(old(ctx.status), 400) && store.db == old(store.db)
    ensures sess.value.UserSession? && sess.value.user.role == "admin" && req.Some? ==>
              var r := CreateUser(old(store.db), NewUserRow(req.value, now), hashOk);
              ctx.status == Written(old(ctx.status), if r.Some? then 201 else 500) &&
              store.db == (if r.Some? then r.value else old(store.db))
    ensures DbValid(old(store.db)) ==> DbValid(store.db)
  {
    if !(sess.value.UserSession? && sess.value.user.role == "admin") {
      ctx.JSON(401);
      return;
    }
    if req.None? {
      ctx.JSON(400);
      return;
    }
    var r := CreateUser(store.db, NewUserRow(req.value, now), hashOk);
    if r.None? {
      ctx.JSON(500);
      return;
    }
    store.db := r.value;
    ctx.JSON(201);
  }

  /** A user an admin has registered can log in with the email, password
      and role of the request, as the new row. */
  lemma RegisteredUserCanLogIn(db: Db, req: RegisterRequest, now: Instant, hashOk: bool, remember: bool)
    requires DbValid(db)
    requires CreateUser(db, NewUserRow(req, now), hashOk).Some?
    ensures var db' := CreateUser(db, NewUserRow(req, now), hashOk).value;
            LoginMatch(db', AuthRequest(req.email, req.password, remember, req.role)) == Some(db'.users[|db'.users| - 1])
  {
    var db' := CreateUser(db, NewUserRow(req, now), hashOk).value;
    var u := db'.users[|db'.users| - 1];
    assert u in db'.users;
    FirstUnique(db'.users, UserEmail, u);
  }

  // ---------------------------------------------------------------------
  // Deletion and log out
  // ---------------------------------------------------------------------

  /** DeleteHandler: the id must be an unsigned decimal (400). The delete
      fails (500, nothing changes) when the driver cannot pass the id as a
      bigint or the schema refuses it; otherwise 200 and the user row goes,
      with the submissions that cascade from it. */
  method Delete(store: Store, ctx: Context, idParam: string)
    modifies store, ctx
    ensures ParseUint(idParam).None? ==> ctx.status == Written(old(ctx.status), 400) && store.db == old(store.db)
    ensures ParseUint(idParam).Some? &&
            (ParseUint(idParam).value >= TwoTo63 || DeleteUserAsWritten(old(store.db), ParseUint(idParam).value).None?) ==>
              ctx.status == Written(old(ctx.status), 500) && store.db == old(store.db)
    ensures ParseUint(idParam).Some? && ParseUint(idParam).value < TwoTo63 &&
            DeleteUserAsWritten(old(store.db), ParseUint(idParam).value).Some? ==>
              ctx.status == Written(old(ctx.status), 200) &&
              store.db == DeleteUserAsWritten(old(store.db), ParseUint(idParam).value).value
    ensures DbValid(old(store.db)) ==> DbValid(store.db)
  {
    var id := ParseUint(idParam);
    if id.None? {
      ctx.JSON(400);
      return;
    }
    var r := DeleteUserAsWritten(store.db, id.value);
    if id.value >= TwoTo63 || r.None? {
      ctx.JSON(500);
      return;
    }
    if DbValid(store.db) {
      DeleteUserAsWrittenValid(store.db, id.value);
    }
    store.db := r.value;
    ctx.JSON(200);
  }

  /** LogoutHandler: the whole session is cleared, which the next request
      sees only if the cookie could be written (500 otherwise). */
  method Logout(ctx: Context, sess: Session, saveOk: bool)
    modifies ctx, sess
    ensures saveOk ==> sess.value == NoUser && ctx.status == Written(old(ctx.status), 200)
    ensures !saveOk ==> sess.value == old(sess.value) && ctx.status == Written(old(ctx.status), 500) && ctx.aborted
  {
    if !saveOk {
      ctx.AbortWithStatusJSON(500);
      return;
    }
    sess.value := NoUser;
    ctx.JSON(200);
  }
}
