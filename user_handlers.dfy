/** Profile lookup, avatar update and the admin's user listing. */
module UserHandlers {
  import opened Common
  import opened Models
  import opened Http
  import opened Endpoints

  // ---------------------------------------------------------------------
  // Profile
  // ---------------------------------------------------------------------

  /** The row `WHERE id = idParam` finds, or the zero value when none does:
      the lookup error (no row, or a parameter the id column cannot read)
      is ignored. The column reads the parameter as a signed decimal. */
  function LookupById(db: Db, idParam: string): (u: User)
    ensures u == ZeroUser || (u in db.users && Atoi(idParam) == Some(u.id as int))
  {
    match Atoi(idParam)
    case None => ZeroUser
    case Some(n) =>
      if n < 0 then ZeroUser
      else
        match First(db.users, UserKey, n as nat)
        case Some(u) => u
        case None => ZeroUser
  }

  /** GetProfileHandler: 400 for an empty id, otherwise 200 with the
      projection of the row found, which is the zero projection when no row
      has that id. */
  function Profile(db: Db, idParam: string): (r: (int, Option<UserResponse>))
    ensures idParam == "" <==> r.0 == 400
    ensures r.0 == 400 || r.0 == 200
    ensures r.1.Some? <==> r.0 == 200
  {
    if idParam == "" then (400, None) else (200, Some(ToResponse(LookupById(db, idParam))))
  }

  /** The profile of a stored user, asked for by the id a client renders,
      is that user's projection. */
  lemma ProfileOfStored(db: Db, u: User)
    requires DbValid(db)
    requires u in db.users
    ensures Profile(db, NatToString(u.id)) == (200, Some(ToResponse(u)))
  {
    var i :| 0 <= i < |db.users| && db.users[i] == u;
    assert u.id < TwoTo63;
    AtoiReadsRenderedId(u.id);
    IdsAscendingKeysDistinct(db.users, UserKey);
    FirstUnique(db.users, UserKey, u);
  }

  /** Any non-empty id no user has still answers 200, with the zero projection. */
  lemma ProfileOfUnknown(db: Db, idParam: string)
    requires idParam != ""
    requires forall u :: u in db.users ==> Atoi(idParam) != Some(u.id as int)
    ensures Profile(db, idParam) == (200, Some(ToResponse(ZeroUser)))
  {
  }

  /** The handler; it reads the store and writes only the status. */
  method GetProfile(store: Store, ctx: Context, idParam: string) returns (body: Option<UserResponse>)
    modifies ctx
    ensures ctx.status == Written(old(ctx.status), Profile(store.db, idParam).0)
    ensures body == Profile(store.db, idParam).1
  {
    if idParam == "" {
      ctx.JSON(400);
      return None;
    }
    var user := LookupById(store.db, idParam);
    body := Some(ToResponse(user));
    ctx.JSON(200);
  }

  // ---------------------------------------------------------------------
  // Avatar
  // ---------------------------------------------------------------------

  function SetAvatar(name: string): User -> User
  {
    (u: User) => u.(avatar := Some(name))
  }

  /** The store after `UPDATE users SET avatar = name WHERE id = id`. */
  function WithAvatar(db: Db, id: nat, name: string): (r: Db)
    ensures |r.users| == |db.users|
    ensures forall i :: 0 <= i < |db.users| && db.users[i].id != id ==> r.users[i] == db.users[i]
    ensures forall i :: 0 <= i < |db.users| && db.users[i].id == id ==>
              r.users[i].avatar == Some(name) && r.users[i].(avatar := db.users[i].avatar) == db.users[i]
    ensures r.(users := db.users) == db
  {
    db.(users := UpdateWhere(db.users, UserIs(id), SetAvatar(name)))
  }

  /** AvatarUpdateHandler. file is the multipart field "avatar", None when
      absent. The upload's own error status, if any, is the response's
      status, but the avatar column is still set, to the empty name. */
  method AvatarUpdate(store: Store, ctx: Context, sess: Session, file: Option<Upload>)
    modifies store, ctx
    ensures !sess.value.UserSession? ==> ctx.status == Written(old(ctx.status), 401) && store.db == old(store.db)
    ensures sess.value.UserSession? && file.None? ==> ctx.status == Written(old(ctx.status), 400) && store.db == old(store.db)
    ensures sess.value.UserSession? && file.Some? ==>
              var o := Outcome(file.value, false);
              store.db == WithAvatar(old(store.db), sess.value.user.id, o.name) &&
              ctx.status == Written(AfterUpload(old(ctx.status), o), 200)
    ensures DbValid(old(store.db)) ==> DbValid(store.db)
  {
    if !sess.value.UserSession? {
      ctx.JSON(401);
      return;
    }
    var el := sess.value.user;
    if file.None? {
      ctx.JSON(400);
      return;
    }
    var filename := ProcessImageFile(file.value, ctx, false);
    if DbValid(store.db) {
      UpdateUsersValid(store.db, UserIs(el.id), SetAvatar(filename));
    }
    store.db := WithAvatar(store.db, el.id, filename);
    ctx.JSON(200);
  }

  /** An avatar upload with a refused extension answers 400 yet replaces the
      stored avatar by the empty name. */
  lemma RefusedAvatarClearsAvatar(db: Db, id: nat, up: Upload)
    requires Extension(up.filename) !in AllowedExtensions
    ensures Outcome(up, false).error == Some(400)
    ensures forall i :: 0 <= i < |db.users| && db.users[i].id == id ==>
              WithAvatar(db, id, Outcome(up, false).name).users[i].avatar == Some("")
  {
    OutcomeSpec(up, false);
  }

  // ---------------------------------------------------------------------
  // User listing
  // ---------------------------------------------------------------------

  function RoleIs(role: string): User -> bool
  {
    (u: User) => u.role == role
  }

  /** The role the listing selects: "student" for students=true, "staff" for
      any other value of the query parameter. */
  function ListedRole(studentsParam: string): string
  {
    if studentsParam == "true" then "student" else "staff"
  }

  /** The users of that role, in stored order. */
  function UsersWithRole(db: Db, role: string): (r: seq<User>)
    ensures forall u :: u in r <==> u in db.users && u.role == role
  {
    Filter(db.users, RoleIs(role))
  }

  /** No stored user has role "staff", so the non-student listing is always
      empty (rendered as JSON null). */
  lemma StaffListEmpty(db: Db, studentsParam: string)
    requires DbValid(db)
    requires studentsParam != "true"
    ensures UsersWithRole(db, ListedRole(studentsParam)) == []
  {
    forall u | u in db.users ensures !RoleIs("staff")(u) {
      var i :| 0 <= i < |db.users| && db.users[i] == u;
      assert StorableRole(db.users[i].role);
    }
    FilterKeepsNone(db.users, RoleIs("staff"));
  }

  /** GetAllUsersHandler: one projection per selected user, in stored order. */
  method GetAllUsers(store: Store, studentsParam: string) returns (list: seq<UserResponse>)
    ensures var sel := UsersWithRole(store.db, ListedRole(studentsParam));
            |list| == |sel| && forall k :: 0 <= k < |sel| ==> list[k] == ToResponse(sel[k])
  {
    var role := if studentsParam == "true" then "student" else "staff";
    var userModel := Filter(store.db.users, RoleIs(role));
    list := [];
    var i := 0;
    while i < |userModel|
      invariant 0 <= i <= |userModel|
      invariant |list| == i
      invariant forall k :: 0 <= k < i ==> list[k] == ToResponse(userModel[k])
    {
      list := list + [ToResponse(userModel[i])];
      i := i + 1;
    }
  }
}
