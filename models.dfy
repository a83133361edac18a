/** The stored records of the ERP and the rules the database enforces on
    them: column constraints, foreign keys with their ON DELETE actions, and
    auto-increment ids. The whole database is a value `Db` (one sequence per
    table, rows in insertion order); `Store` is the mutable handle the
    request handlers change in place. */
module Models {
  import opened Common

  /** Instants of the abstract clock, counted in whole months. */
  type Instant = int

  /** A calendar date at midnight UTC, as time.Parse returns it for a full-date. */
  datatype Date = Date(year: int, month: int, day: int)

  /** The password column: a plain string (only the zero-valued record of a
      failed lookup holds one) or the bcrypt digest of some password. The
      digest is ideal: two passwords share a digest only if they are equal. */
  datatype Secret = Plain(text: string) | Bcrypt(digestOf: string)

  /** BeforeCreate: the password is replaced by its digest before the row is
      first written. */
  function Hash(password: string): (h: Secret)
    ensures h.Bcrypt? && h.digestOf == password
  {
    Bcrypt(password)
  }

  /** What the stored digest promises a later login: two passwords share a
      digest exactly when they are equal, and a digest is never a plain
      password. */
  lemma HashInjective(p: string, q: string)
    ensures Hash(p) == Hash(q) <==> p == q
    ensures !Hash(p).Plain?
  {
  }

  /** The roles the check constraint on users.role admits. */
  predicate StorableRole(role: string)
  {
    role == "teacher" || role == "student" || role == "admin" || role == "lead" || role == "sales"
  }

  /** The values the check clause on leads.source is meant to admit. */
  predicate LeadSource(source: string)
  {
    source == "dm" || source == "story" || source == "wp" || source == "ad"
  }

  /** The values the check clause on leads.status is meant to admit (the
      statuses the lead page offers). */
  predicate LeadStatus(status: string)
  {
    status == "new" || status == "answered" || status == "awaiting" || status == "demo"
  }

  datatype User = User(
    id: nat, email: string, firstName: string, lastName: string,
    password: Secret, role: string, registered: Instant,
    lastLogin: Option<Instant>, avatar: Option<string>)

  datatype Course = Course(
    id: nat, name: string, description: string, previewImage: string,
    duration: string, price: string, teacherId: Option<nat>)

  datatype Enrollment = Enrollment(
    id: nat, userId: nat, courseId: nat, startDate: Instant, endDate: Instant,
    paid: bool, paidDate: Instant)

  datatype Lesson = Lesson(id: nat, courseId: nat, name: string, description: string, startDate: Instant)

  datatype LessonTasks = LessonTasks(id: nat, lessonId: nat, homework: seq<string>, classwork: seq<string>)

  datatype Homework = Homework(
    id: nat, userId: nat, lessonId: nat, files: seq<string>, startDate: Instant,
    points: nat, checked: bool, comment: string)

  datatype Lead = Lead(
    id: nat, description: string, name: string, date: Date, phone: string,
    nickname: string, source: string, status: string, author: string, course: string)

  /** A sales row created for a lead: its lead id and the id of the course
      (group) the lead asked for, plus the columns the sales team edits. */
  datatype Sales = Sales(
    id: nat, leadId: nat, groupId: nat, lastCall: string, result: string,
    paid: bool, note: string)

  /** The user as the session and the API expose it: eight columns, never the password. */
  datatype UserResponse = UserResponse(
    id: nat, email: string, firstName: string, lastName: string, role: string,
    registered: Instant, lastLogin: Option<Instant>, avatar: Option<string>)

  /** The zero value of User, which GORM's First leaves in place when no row matches. */
  const ZeroUser: User := User(0, "", "", "", Plain(""), "", 0, None, None)

  function ToResponse(u: User): UserResponse
  {
    UserResponse(u.id, u.email, u.firstName, u.lastName, u.role, u.registered, u.lastLogin, u.avatar)
  }

  /** The projection never carries the password: users that differ only in
      their password have the same projection. */
  lemma ProjectionOmitsPassword(u: User, p: Secret)
    ensures ToResponse(u.(password := p)) == ToResponse(u)
    ensures ToResponse(u).id == u.id && ToResponse(u).role == u.role && ToResponse(u).email == u.email
  {
  }

  // ---------------------------------------------------------------------
  // Keys
  // ---------------------------------------------------------------------

  function UserKey(u: User): nat { u.id }
  function UserEmail(u: User): string { u.email }
  function CourseKey(c: Course): nat { c.id }
  function CourseName(c: Course): string { c.name }
  function EnrollmentKey(e: Enrollment): nat { e.id }
  function EnrollmentPair(e: Enrollment): (nat, nat) { (e.userId, e.courseId) }
  function LessonKey(l: Lesson): nat { l.id }
  function TasksKey(t: LessonTasks): nat { t.id }
  function TasksLesson(t: LessonTasks): nat { t.lessonId }
  function HomeworkKey(h: Homework): nat { h.id }
  function HomeworkPair(h: Homework): (nat, nat) { (h.userId, h.lessonId) }
  function LeadKey(l: Lead): nat { l.id }
  function LeadPhone(l: Lead): string { l.phone }
  function SalesKey(s: Sales): nat { s.id }
  function SalesLead(s: Sales): nat { s.leadId }

  /** Ids of a table: positive, within the bigserial range, and strictly
      increasing in stored order (an auto-increment primary key, so "first
      by primary key" is "first stored"). */
  ghost predicate IdsAscending<T>(s: seq<T>, id: T -> nat)
  {
    (forall i :: 0 <= i < |s| ==> 0 < id(s[i]) < TwoTo63) &&
    (forall i, j :: 0 <= i < j < |s| ==> id(s[i]) < id(s[j]))
  }

  // ---------------------------------------------------------------------
  // The database
  // ---------------------------------------------------------------------

  datatype Db = Db(
    users: seq<User>, courses: seq<Course>, enrollments: seq<Enrollment>,
    lessons: seq<Lesson>, tasks: seq<LessonTasks>, homeworks: seq<Homework>,
    leads: seq<Lead>, sales: seq<Sales>)

  const EmptyDb: Db := Db([], [], [], [], [], [], [], [])

  /** Column constraints of users: unique email, role in the check list,
      password stored as a digest. */
  ghost predicate UsersValid(users: seq<User>)
  {
    IdsAscending(users, UserKey) && KeysDistinct(users, UserEmail) &&
    forall i :: 0 <= i < |users| ==> StorableRole(users[i].role) && users[i].password.Bcrypt?
  }

  /** Every foreign key of db refers to an existing row. */
  ghost predicate ForeignKeysValid(db: Db)
  {
    (forall i :: 0 <= i < |db.courses| ==>
       db.courses[i].teacherId.None? || HasKey(db.users, UserKey, db.courses[i].teacherId.value)) &&
    (forall i :: 0 <= i < |db.enrollments| ==>
       HasKey(db.users, UserKey, db.enrollments[i].userId) && HasKey(db.courses, CourseKey, db.enrollments[i].courseId)) &&
    (forall i :: 0 <= i < |db.lessons| ==> HasKey(db.courses, CourseKey, db.lessons[i].courseId)) &&
    (forall i :: 0 <= i < |db.tasks| ==> HasKey(db.lessons, LessonKey, db.tasks[i].lessonId)) &&
    (forall i :: 0 <= i < |db.homeworks| ==>
       HasKey(db.users, UserKey, db.homeworks[i].userId) && HasKey(db.lessons, LessonKey, db.homeworks[i].lessonId))
  }

  /** Uniqueness rules the handlers keep (the schema does not declare them):
      one enrollment per (user, course), one submission per (user, lesson),
      one lead per phone. */
  /** The foreign key of a sales row's Lead association: the lead it names
      is stored. */
  ghost predicate SalesRefsValid(db: Db)
  {
    forall i :: 0 <= i < |db.sales| ==> HasKey(db.leads, LeadKey, db.sales[i].leadId)
  }

  ghost predicate HandlerRulesValid(db: Db)
  {
    KeysDistinct(db.enrollments, EnrollmentPair) &&
    KeysDistinct(db.homeworks, HomeworkPair) &&
    KeysDistinct(db.leads, LeadPhone)
  }

  ghost predicate DbValid(db: Db)
  {
    UsersValid(db.users) &&
    IdsAscending(db.courses, CourseKey) && IdsAscending(db.enrollments, EnrollmentKey) &&
    IdsAscending(db.lessons, LessonKey) && IdsAscending(db.tasks, TasksKey) &&
    IdsAscending(db.homeworks, HomeworkKey) && IdsAscending(db.leads, LeadKey) &&
    IdsAscending(db.sales, SalesKey) &&
    ForeignKeysValid(db) && SalesRefsValid(db) && HandlerRulesValid(db)
  }

  /** The check clauses the lead tags evidently intend: every lead's source
      and status are among the allowed values. The tags as written create no
      such constraint, so this is not part of DbValid; only the intended
      insert CreateLead keeps it. */
  ghost predicate LeadsChecked(leads: seq<Lead>)
  {
    forall i :: 0 <= i < |leads| ==> LeadSource(leads[i].source) && LeadStatus(leads[i].status)
  }

  lemma EmptyDbValid()
    ensures DbValid(EmptyDb)
  {
  }

  // ---------------------------------------------------------------------
  // Generic facts about keys
  // ---------------------------------------------------------------------

  lemma HasKeyMember<T, K>(s: seq<T>, key: T -> K, x: T)
    requires x in s
    ensures HasKey(s, key, key(x))
  {
    var i :| 0 <= i < |s| && s[i] == x;
  }

  lemma HasKeyFilter<T(!new), K>(s: seq<T>, keep: T -> bool, key: T -> K, k: K)
    requires HasKey(s, key, k)
    requires forall x :: x in s && key(x) == k ==> keep(x)
    ensures HasKey(Filter(s, keep), key, k)
  {
    var i :| 0 <= i < |s| && key(s[i]) == k;
    assert s[i] in Filter(s, keep);
    HasKeyMember(Filter(s, keep), key, s[i]);
  }

  lemma HasKeyAppend<T, K>(s: seq<T>, x: T, key: T -> K, k: K)
    requires HasKey(s, key, k)
    ensures HasKey(s + [x], key, k)
  {
    var i :| 0 <= i < |s| && key(s[i]) == k;
    assert (s + [x])[i] == s[i];
  }

  lemma IdsAscendingCons<T>(x: T, rest: seq<T>, id: T -> nat)
    requires IdsAscending(rest, id)
    requires 0 < id(x) < TwoTo63
    requires forall j :: 0 <= j < |rest| ==> id(x) < id(rest[j])
    ensures IdsAscending([x] + rest, id)
  {
    var r := [x] + rest;
    forall i | 0 < i < |r| ensures r[i] == rest[i - 1] {}
  }

  lemma {:induction false} IdsAscendingFilter<T(!new)>(s: seq<T>, keep: T -> bool, id: T -> nat)
    requires IdsAscending(s, id)
    ensures IdsAscending(Filter(s, keep), id)
  {
    if |s| > 0 {
      IdsAscendingFilter(s[1..], keep, id);
      var rest := Filter(s[1..], keep);
      if keep(s[0]) {
        forall x | x in s[1..] ensures id(s[0]) < id(x) {
          var k :| 0 <= k < |s| - 1 && s[1..][k] == x;
          assert s[k + 1] == x;
        }
        forall j | 0 <= j < |rest| ensures id(s[0]) < id(rest[j]) {
          assert rest[j] in rest;
        }
        IdsAscendingCons(s[0], rest, id);
      }
    }
  }

  lemma IdsAscendingMapRows<T>(s: seq<T>, f: T -> T, id: T -> nat)
    requires IdsAscending(s, id)
    requires forall x :: id(f(x)) == id(x)
    ensures IdsAscending(MapRows(s, f), id)
  {
    var r := MapRows(s, f);
    forall i | 0 <= i < |r| ensures id(r[i]) == id(s[i]) {
      assert r[i] == f(s[i]);
    }
  }

  lemma IdsAscendingAppend<T(!new)>(s: seq<T>, x: T, id: T -> nat)
    requires IdsAscending(s, id)
    requires id(x) == NextId(s, id) < TwoTo63
    ensures IdsAscending(s + [x], id)
  {
    var r := s + [x];
    forall i, j | 0 <= i < j < |r| ensures id(r[i]) < id(r[j]) {
      if j == |s| {
        assert r[i] in s;
      } else {
        assert r[i] == s[i] && r[j] == s[j];
      }
    }
  }

  /** Ascending ids are distinct keys. */
  lemma IdsAscendingKeysDistinct<T>(s: seq<T>, id: T -> nat)
    requires IdsAscending(s, id)
    ensures KeysDistinct(s, id)
  {
  }

  /** A fresh key is not the key of any row. */
  lemma NextIdFresh<T(!new)>(s: seq<T>, id: T -> nat)
    ensures !HasKey(s, id, NextId(s, id))
  {
    forall i | 0 <= i < |s| ensures id(s[i]) != NextId(s, id) {
      assert s[i] in s;
    }
  }

  lemma KeysDistinctAppend<T(!new), K>(s: seq<T>, x: T, key: T -> K)
    requires KeysDistinct(s, key)
    requires !HasKey(s, key, key(x))
    ensures KeysDistinct(s + [x], key)
  {
    var r := s + [x];
    forall i, j | 0 <= i < j < |r| ensures key(r[i]) != key(r[j]) {
      if j == |s| {
        assert r[i] == s[i];
      } else {
        assert r[i] == s[i] && r[j] == s[j];
      }
    }
  }

  /** Foreign keys stay valid when the key columns of every table keep their
      values and rows are only added (never removed) to the referenced tables. */
  lemma ForeignKeysGrow(db: Db, db': Db)
    requires ForeignKeysValid(db)
    requires forall k :: HasKey(db.users, UserKey, k) ==> HasKey(db'.users, UserKey, k)
    requires forall k :: HasKey(db.courses, CourseKey, k) ==> HasKey(db'.courses, CourseKey, k)
    requires forall k :: HasKey(db.lessons, LessonKey, k) ==> HasKey(db'.lessons, LessonKey, k)
    requires db.courses <= db'.courses && db.enrollments <= db'.enrollments && db.lessons <= db'.lessons
    requires db.tasks <= db'.tasks && db.homeworks <= db'.homeworks
    requires forall i :: |db.courses| <= i < |db'.courses| ==>
               db'.courses[i].teacherId.None? || HasKey(db'.users, UserKey, db'.courses[i].teacherId.value)
    requires forall i :: |db.enrollments| <= i < |db'.enrollments| ==>
               HasKey(db'.users, UserKey, db'.enrollments[i].userId) && HasKey(db'.courses, CourseKey, db'.enrollments[i].courseId)
    requires forall i :: |db.lessons| <= i < |db'.lessons| ==> HasKey(db'.courses, CourseKey, db'.lessons[i].courseId)
    requires forall i :: |db.tasks| <= i < |db'.tasks| ==> HasKey(db'.lessons, LessonKey, db'.tasks[i].lessonId)
    requires forall i :: |db.homeworks| <= i < |db'.homeworks| ==>
               HasKey(db'.users, UserKey, db'.homeworks[i].userId) && HasKey(db'.lessons, LessonKey, db'.homeworks[i].lessonId)
    ensures ForeignKeysValid(db')
  {
  }

  lemma HasKeyPrefix<T, K>(s: seq<T>, x: T, key: T -> K)
    ensures forall k :: HasKey(s, key, k) ==> HasKey(s + [x], key, k)
  {
    forall k | HasKey(s, key, k) ensures HasKey(s + [x], key, k) {
      HasKeyAppend(s, x, key, k);
    }
  }

  /** Every id a stored submission holds is within the bigserial range. */
  lemma HomeworkIdsBounded(db: Db, h: Homework)
    requires DbValid(db)
    requires h in db.homeworks
    ensures h.id < TwoTo63 && h.userId < TwoTo63 && h.lessonId < TwoTo63
  {
    var k :| 0 <= k < |db.homeworks| && db.homeworks[k] == h;
    assert HasKey(db.users, UserKey, h.userId) && HasKey(db.lessons, LessonKey, h.lessonId);
    var i :| 0 <= i < |db.users| && UserKey(db.users[i]) == h.userId;
    var j :| 0 <= j < |db.lessons| && LessonKey(db.lessons[j]) == h.lessonId;
    assert db.users[i].id < TwoTo63 && db.lessons[j].id < TwoTo63;
  }

  // ---------------------------------------------------------------------
  // Inserts (GORM Create). Each succeeds exactly when the constraints the
  // schema declares hold and the id sequence is not exhausted; the row is
  // then appended with the next id. The handler rules (one enrollment per
  // pair, ...) are not checked by the database: an insert keeps DbValid
  // only when the handler has checked them.
  // ---------------------------------------------------------------------

  function CreateUser(db: Db, row: User, hashOk: bool): (r: Option<Db>)
    requires row.password.Plain?
    ensures r.Some? <==> hashOk && NextId(db.users, UserKey) < TwoTo63 &&
                         !HasKey(db.users, UserEmail, row.email) && StorableRole(row.role)
    ensures r.Some? ==> r.value == db.(users := db.users + [row.(id := NextId(db.users, UserKey), password := Hash(row.password.text))])
    ensures r.Some? && DbValid(db) ==> DbValid(r.value)
  {
    var u := row.(id := NextId(db.users, UserKey), password := Hash(row.password.text));
    if hashOk && NextId(db.users, UserKey) < TwoTo63 && !HasKey(db.users, UserEmail, row.email) && StorableRole(row.role) then
      var db' := db.(users := db.users + [u]);
      assert DbValid(db) ==> DbValid(db') by { if DbValid(db) { InsertUserValid(db, u); } }
      Some(db')
    else None
  }

  lemma InsertUserValid(db: Db, u: User)
    requires DbValid(db)
    requires !HasKey(db.users, UserEmail, u.email) && StorableRole(u.role) && u.password.Bcrypt?
    requires u.id == NextId(db.users, UserKey) < TwoTo63
    ensures DbValid(db.(users := db.users + [u]))
  {
    var db' := db.(users := db.users + [u]);
    IdsAscendingAppend(db.users, u, UserKey);
    KeysDistinctAppend(db.users, u, UserEmail);
    forall i | 0 <= i < |db'.users| ensures StorableRole(db'.users[i].role) && db'.users[i].password.Bcrypt? {
      if i < |db.users| { assert db'.users[i] == db.users[i]; }
    }
    HasKeyPrefix(db.users, u, UserKey);
    ForeignKeysGrow(db, db');
  }

  function CreateCourse(db: Db, row: Course): (r: Option<Db>)
    ensures r.Some? <==> NextId(db.courses, CourseKey) < TwoTo63 &&
                         (row.teacherId.None? || HasKey(db.users, UserKey, row.teacherId.value))
    ensures r.Some? ==> r.value == db.(courses := db.courses + [row.(id := NextId(db.courses, CourseKey))])
    ensures r.Some? && DbValid(db) ==> DbValid(r.value)
  {
    var c := row.(id := NextId(db.courses, CourseKey));
    if NextId(db.courses, CourseKey) < TwoTo63 && (row.teacherId.None? || HasKey(db.users, UserKey, row.teacherId.value)) then
      var db' := db.(courses := db.courses + [c]);
      assert DbValid(db) ==> DbValid(db') by {
        if DbValid(db) {
          IdsAscendingAppend(db.courses, c, CourseKey);
          HasKeyPrefix(db.courses, c, CourseKey);
          ForeignKeysGrow(db, db');
        }
      }
      Some(db')
    else None
  }

  /** Appending an enrollment under the next id, naming a stored user and
      course and a pair not yet enrolled, keeps the store valid. */
  lemma AppendEnrollmentValid(db: Db, e: Enrollment)
    requires DbValid(db) && !HasKey(db.enrollments, EnrollmentPair, EnrollmentPair(e))
    requires e.id == NextId(db.enrollments, EnrollmentKey) < TwoTo63
    requires HasKey(db.users, UserKey, e.userId) && HasKey(db.courses, CourseKey, e.courseId)
    ensures DbValid(db.(enrollments := db.enrollments + [e]))
  {
    var db' := db.(enrollments := db.enrollments + [e]);
    IdsAscendingAppend(db.enrollments, e, EnrollmentKey);
    KeysDistinctAppend(db.enrollments, e, EnrollmentPair);
    ForeignKeysGrow(db, db');
  }

  /** Appending a submission under the next id, naming a stored user and
      lesson and a pair not yet submitted, keeps the store valid. */
  lemma AppendHomeworkValid(db: Db, h: Homework)
    requires DbValid(db) && !HasKey(db.homeworks, HomeworkPair, HomeworkPair(h))
    requires h.id == NextId(db.homeworks, HomeworkKey) < TwoTo63
    requires HasKey(db.users, UserKey, h.userId) && HasKey(db.lessons, LessonKey, h.lessonId)
    ensures DbValid(db.(homeworks := db.homeworks + [h]))
  {
    var db' := db.(homeworks := db.homeworks + [h]);
    IdsAscendingAppend(db.homeworks, h, HomeworkKey);
    KeysDistinctAppend(db.homeworks, h, HomeworkPair);
    ForeignKeysGrow(db, db');
  }

  function CreateEnrollment(db: Db, row: Enrollment): (r: Option<Db>)
    ensures r.Some? <==> NextId(db.enrollments, EnrollmentKey) < TwoTo63 &&
                         HasKey(db.users, UserKey, row.userId) && HasKey(db.courses, CourseKey, row.courseId)
    ensures r.Some? ==> r.value == db.(enrollments := db.enrollments + [row.(id := NextId(db.enrollments, EnrollmentKey))])
    ensures r.Some? && DbValid(db) && !HasKey(db.enrollments, EnrollmentPair, EnrollmentPair(row)) ==> DbValid(r.value)
  {
    var e := row.(id := NextId(db.enrollments, EnrollmentKey));
    if NextId(db.enrollments, EnrollmentKey) < TwoTo63 && HasKey(db.users, UserKey, row.userId) && HasKey(db.courses, CourseKey, row.courseId) then
      var db' := db.(enrollments := db.enrollments + [e]);
      assert DbValid(db) && !HasKey(db.enrollments, EnrollmentPair, EnrollmentPair(row)) ==> DbValid(db') by {
        if DbValid(db) && !HasKey(db.enrollments, EnrollmentPair, EnrollmentPair(row)) {
          AppendEnrollmentValid(db, e);
        }
      }
      Some(db')
    else None
  }

  function CreateLesson(db: Db, row: Lesson): (r: Option<Db>)
    ensures r.Some? <==> NextId(db.lessons, LessonKey) < TwoTo63 && HasKey(db.courses, CourseKey, row.courseId)
    ensures r.Some? ==> r.value == db.(lessons := db.lessons + [row.(id := NextId(db.lessons, LessonKey))])
    ensures r.Some? && DbValid(db) ==> DbValid(r.value)
  {
    var l := row.(id := NextId(db.lessons, LessonKey));
    if NextId(db.lessons, LessonKey) < TwoTo63 && HasKey(db.courses, CourseKey, row.courseId) then
      var db' := db.(lessons := db.lessons + [l]);
      assert DbValid(db) ==> DbValid(db') by {
        if DbValid(db) {
          IdsAscendingAppend(db.lessons, l, LessonKey);
          HasKeyPrefix(db.lessons, l, LessonKey);
          ForeignKeysGrow(db, db');
        }
      }
      Some(db')
    else None
  }

  function CreateTasks(db: Db, row: LessonTasks): (r: Option<Db>)
    ensures r.Some? <==> NextId(db.tasks, TasksKey) < TwoTo63 && HasKey(db.lessons, LessonKey, row.lessonId)
    ensures r.Some? ==> r.value == db.(tasks := db.tasks + [row.(id := NextId(db.tasks, TasksKey))])
    ensures r.Some? && DbValid(db) ==> DbValid(r.value)
  {
    var t := row.(id := NextId(db.tasks, TasksKey));
    if NextId(db.tasks, TasksKey) < TwoTo63 && HasKey(db.lessons, LessonKey, row.lessonId) then
      var db' := db.(tasks := db.tasks + [t]);
      assert DbValid(db) ==> DbValid(db') by {
        if DbValid(db) {
          IdsAscendingAppend(db.tasks, t, TasksKey);
          ForeignKeysGrow(db, db');
        }
      }
      Some(db')
    else None
  }

  function CreateHomework(db: Db, row: Homework): (r: Option<Db>)
    ensures r.Some? <==> NextId(db.homeworks, HomeworkKey) < TwoTo63 &&
                         HasKey(db.users, UserKey, row.userId) && HasKey(db.lessons, LessonKey, row.lessonId)
    ensures r.Some? ==> r.value == db.(homeworks := db.homeworks + [row.(id := NextId(db.homeworks, HomeworkKey))])
    ensures r.Some? && DbValid(db) && !HasKey(db.homeworks, HomeworkPair, HomeworkPair(row)) ==> DbValid(r.value)
  {
    var h := row.(id := NextId(db.homeworks, HomeworkKey));
    if NextId(db.homeworks, HomeworkKey) < TwoTo63 && HasKey(db.users, UserKey, row.userId) && HasKey(db.lessons, LessonKey, row.lessonId) then
      var db' := db.(homeworks := db.homeworks + [h]);
      assert DbValid(db) && !HasKey(db.homeworks, HomeworkPair, HomeworkPair(row)) ==> DbValid(db') by {
        if DbValid(db) && !HasKey(db.homeworks, HomeworkPair, HomeworkPair(row)) {
          AppendHomeworkValid(db, h);
        }
      }
      Some(db')
    else None
  }

  /** The leads insert as the column tags are written: `check (...)` has no
      colon, so the tag parser takes the whole clause as an unknown setting
      and no check constraint is created on either column; the clause on
      status tests source in any case. Only the id range can refuse a row.
      This is the insert the lead handler runs. */
  function CreateLeadAsWritten(db: Db, row: Lead): (r: Option<Db>)
    ensures r.Some? <==> NextId(db.leads, LeadKey) < TwoTo63
    ensures r.Some? ==> r.value == db.(leads := db.leads + [row.(id := NextId(db.leads, LeadKey))])
    ensures r.Some? && DbValid(db) && !HasKey(db.leads, LeadPhone, row.phone) ==> DbValid(r.value)
  {
    var l := row.(id := NextId(db.leads, LeadKey));
    if NextId(db.leads, LeadKey) < TwoTo63 then
      var db' := db.(leads := db.leads + [l]);
      assert DbValid(db) && !HasKey(db.leads, LeadPhone, row.phone) ==> DbValid(db') by {
        if DbValid(db) && !HasKey(db.leads, LeadPhone, row.phone) {
          IdsAscendingAppend(db.leads, l, LeadKey);
          assert LeadPhone(l) == row.phone;
          KeysDistinctAppend(db.leads, l, LeadPhone);
          HasKeyPrefix(db.leads, l, LeadKey);
        }
      }
      Some(db')
    else None
  }

  /** The leads insert with the check clauses the tags evidently intend:
      source in (dm, story, wp, ad) and status in (new, answered, awaiting,
      demo). It refuses exactly the rows outside the lists, and so keeps
      every stored lead checked. */
  function CreateLead(db: Db, row: Lead): (r: Option<Db>)
    ensures r.Some? <==> NextId(db.leads, LeadKey) < TwoTo63 && LeadSource(row.source) && LeadStatus(row.status)
    ensures r.Some? ==> r.value == db.(leads := db.leads + [row.(id := NextId(db.leads, LeadKey))])
    ensures r.Some? && LeadsChecked(db.leads) ==> LeadsChecked(r.value.leads)
  {
    if LeadSource(row.source) && LeadStatus(row.status) then
      var r := CreateLeadAsWritten(db, row);
      assert r.Some? && LeadsChecked(db.leads) ==> LeadsChecked(r.value.leads) by {
        if r.Some? && LeadsChecked(db.leads) {
          var leads := r.value.leads;
          forall i | 0 <= i < |leads| ensures LeadSource(leads[i].source) && LeadStatus(leads[i].status) {
            if i < |db.leads| { assert leads[i] == db.leads[i]; }
          }
        }
      }
      r
    else None
  }

  /** The as-written insert stores a lead whose source and status are
      outside both lists; the intended insert refuses it. */
  lemma LeadChecksMissing(row: Lead)
    requires row.source == "tiktok" && row.status == "lost"
    ensures CreateLeadAsWritten(EmptyDb, row).Some?
    ensures !LeadsChecked(CreateLeadAsWritten(EmptyDb, row).value.leads)
    ensures CreateLead(EmptyDb, row).None?
  {
    assert CreateLeadAsWritten(EmptyDb, row).value.leads[0].source == "tiktok";
  }

  /** The sales insert. The row's Lead association gives the table a foreign
      key lead_id, so the row must name a stored lead. The Course
      association's key is not part of this model. */
  function CreateSales(db: Db, row: Sales): (r: Option<Db>)
    ensures r.Some? <==> NextId(db.sales, SalesKey) < TwoTo63 && HasKey(db.leads, LeadKey, row.leadId)
    ensures r.Some? ==> r.value == db.(sales := db.sales + [row.(id := NextId(db.sales, SalesKey))])
    ensures r.Some? && DbValid(db) ==> DbValid(r.value)
  {
    var x := row.(id := NextId(db.sales, SalesKey));
    if NextId(db.sales, SalesKey) < TwoTo63 && HasKey(db.leads, LeadKey, row.leadId) then
      var db' := db.(sales := db.sales + [x]);
      assert DbValid(db) ==> DbValid(db') by { if DbValid(db) { IdsAscendingAppend(db.sales, x, SalesKey); } }
      Some(db')
    else None
  }

  // ---------------------------------------------------------------------
  // Row selectors of the WHERE clauses (named, so that every use of the
  // same clause denotes the same function)
  // ---------------------------------------------------------------------

  function UserNot(id: nat): User -> bool { (u: User) => u.id != id }
  function CourseNot(id: nat): Course -> bool { (c: Course) => c.id != id }
  function LessonNot(id: nat): Lesson -> bool { (l: Lesson) => l.id != id }
  function EnrollmentNotOfUser(id: nat): Enrollment -> bool { (e: Enrollment) => e.userId != id }
  function EnrollmentNotOfCourse(id: nat): Enrollment -> bool { (e: Enrollment) => e.courseId != id }
  function HomeworkNotOfUser(id: nat): Homework -> bool { (h: Homework) => h.userId != id }
  function HomeworkNotOfLesson(id: nat): Homework -> bool { (h: Homework) => h.lessonId != id }
  function TasksNotOfLesson(id: nat): LessonTasks -> bool { (t: LessonTasks) => t.lessonId != id }
  function LessonOfCourse(id: nat): Lesson -> bool { (l: Lesson) => l.courseId == id }
  function LessonNotOfCourse(id: nat): Lesson -> bool { (l: Lesson) => l.courseId != id }
  function TasksNotIn(gone: seq<Lesson>): LessonTasks -> bool { (t: LessonTasks) => !HasKey(gone, LessonKey, t.lessonId) }
  function HomeworkNotIn(gone: seq<Lesson>): Homework -> bool { (h: Homework) => !HasKey(gone, LessonKey, h.lessonId) }
  function TeacherCleared(id: nat): Course -> Course { (c: Course) => ClearTeacher(c, id) }

  // ---------------------------------------------------------------------
  // Deletes with the ON DELETE actions the tags declare (the intended
  // schema; the schema as created follows below)
  // ---------------------------------------------------------------------

  /** Course rows after their teacher is deleted: ON DELETE SET NULL. */
  function ClearTeacher(c: Course, id: nat): Course
  {
    if c.teacherId == Some(id) then c.(teacherId := None) else c
  }

  /** DELETE FROM users WHERE id = id, with its actions: the user's
      enrollments and submissions are deleted (CASCADE), the courses they
      teach lose their teacher (SET NULL) and stay. */
  function DeleteUser(db: Db, id: nat): (r: Db)
    ensures !HasKey(r.users, UserKey, id)
    ensures forall u :: u in r.users <==> u in db.users && u.id != id
    ensures |r.courses| == |db.courses|
    ensures forall i :: 0 <= i < |r.courses| ==>
              r.courses[i].id == db.courses[i].id && r.courses[i].teacherId != Some(id) &&
              (db.courses[i].teacherId != Some(id) ==> r.courses[i] == db.courses[i])
    ensures forall e :: e in r.enrollments <==> e in db.enrollments && e.userId != id
    ensures forall h :: h in r.homeworks <==> h in db.homeworks && h.userId != id
    ensures r.lessons == db.lessons && r.tasks == db.tasks && r.leads == db.leads && r.sales == db.sales
  {
    var r := Db(
      Filter(db.users, UserNot(id)),
      MapRows(db.courses, TeacherCleared(id)),
      Filter(db.enrollments, EnrollmentNotOfUser(id)),
      db.lessons, db.tasks,
      Filter(db.homeworks, HomeworkNotOfUser(id)),
      db.leads, db.sales);
    assert !HasKey(r.users, UserKey, id) by {
      forall i | 0 <= i < |r.users| ensures UserKey(r.users[i]) != id {
        assert r.users[i] in r.users;
      }
    }
    r
  }

  lemma UsersValidFilter(users: seq<User>, keep: User -> bool)
    requires UsersValid(users)
    ensures UsersValid(Filter(users, keep))
  {
    var r := Filter(users, keep);
    IdsAscendingFilter(users, keep, UserKey);
    FilterKeepsKeysDistinct(users, keep, UserEmail);
    forall i | 0 <= i < |r| ensures StorableRole(r[i].role) && r[i].password.Bcrypt? {
      assert r[i] in users;
    }
  }

  lemma DeleteUserParentKeys(db: Db, id: nat)
    requires ForeignKeysValid(db)
    ensures var r := DeleteUser(db, id);
      (forall i :: 0 <= i < |r.courses| ==>
         r.courses[i].teacherId.None? || HasKey(r.users, UserKey, r.courses[i].teacherId.value)) &&
      (forall i :: 0 <= i < |r.lessons| ==> HasKey(r.courses, CourseKey, r.lessons[i].courseId)) &&
      (forall i :: 0 <= i < |r.tasks| ==> HasKey(r.lessons, LessonKey, r.tasks[i].lessonId))
  {
    var r := DeleteUser(db, id);
    forall k | HasKey(db.users, UserKey, k) && k != id ensures HasKey(r.users, UserKey, k) {
      HasKeyFilter(db.users, UserNot(id), UserKey, k);
    }
    forall k | HasKey(db.courses, CourseKey, k) ensures HasKey(r.courses, CourseKey, k) {
      var i :| 0 <= i < |db.courses| && CourseKey(db.courses[i]) == k;
      assert CourseKey(r.courses[i]) == k;
    }
  }

  lemma DeleteUserChildKeys(db: Db, id: nat)
    requires ForeignKeysValid(db)
    ensures var r := DeleteUser(db, id);
      (forall i :: 0 <= i < |r.enrollments| ==>
         HasKey(r.users, UserKey, r.enrollments[i].userId) && HasKey(r.courses, CourseKey, r.enrollments[i].courseId)) &&
      (forall i :: 0 <= i < |r.homeworks| ==>
         HasKey(r.users, UserKey, r.homeworks[i].userId) && HasKey(r.lessons, LessonKey, r.homeworks[i].lessonId))
  {
    var r := DeleteUser(db, id);
    forall k | HasKey(db.users, UserKey, k) && k != id ensures HasKey(r.users, UserKey, k) {
      HasKeyFilter(db.users, UserNot(id), UserKey, k);
    }
    forall k | HasKey(db.courses, CourseKey, k) ensures HasKey(r.courses, CourseKey, k) {
      var i :| 0 <= i < |db.courses| && CourseKey(db.courses[i]) == k;
      assert CourseKey(r.courses[i]) == k;
    }
    forall i | 0 <= i < |r.enrollments|
      ensures HasKey(r.users, UserKey, r.enrollments[i].userId) && HasKey(r.courses, CourseKey, r.enrollments[i].courseId)
    {
      assert r.enrollments[i] in db.enrollments;
    }
    forall i | 0 <= i < |r.homeworks|
      ensures HasKey(r.users, UserKey, r.homeworks[i].userId) && HasKey(r.lessons, LessonKey, r.homeworks[i].lessonId)
    {
      assert r.homeworks[i] in db.homeworks;
    }
  }

  lemma DeleteUserForeignKeys(db: Db, id: nat)
    requires ForeignKeysValid(db)
    ensures ForeignKeysValid(DeleteUser(db, id))
  {
    DeleteUserParentKeys(db, id);
    DeleteUserChildKeys(db, id);
  }

  lemma DeleteUserValid(db: Db, id: nat)
    requires DbValid(db)
    ensures DbValid(DeleteUser(db, id))
  {
    UsersValidFilter(db.users, UserNot(id));
    IdsAscendingMapRows(db.courses, TeacherCleared(id), CourseKey);
    IdsAscendingFilter(db.enrollments, EnrollmentNotOfUser(id), EnrollmentKey);
    IdsAscendingFilter(db.homeworks, HomeworkNotOfUser(id), HomeworkKey);
    FilterKeepsKeysDistinct(db.enrollments, EnrollmentNotOfUser(id), EnrollmentPair);
    FilterKeepsKeysDistinct(db.homeworks, HomeworkNotOfUser(id), HomeworkPair);
    DeleteUserForeignKeys(db, id);
  }

  /** The lessons of course id. */
  function LessonsOf(db: Db, courseId: nat): (r: seq<Lesson>)
    ensures forall l :: l in r <==> l in db.lessons && l.courseId == courseId
  {
    Filter(db.lessons, LessonOfCourse(courseId))
  }

  /** DELETE FROM lessons WHERE id = id: its task records and submissions
      go with it (CASCADE). */
  function DeleteLesson(db: Db, id: nat): (r: Db)
    ensures forall l :: l in r.lessons <==> l in db.lessons && l.id != id
    ensures forall t :: t in r.tasks <==> t in db.tasks && t.lessonId != id
    ensures forall h :: h in r.homeworks <==> h in db.homeworks && h.lessonId != id
    ensures r.users == db.users && r.courses == db.courses && r.enrollments == db.enrollments
    ensures r.leads == db.leads && r.sales == db.sales
  {
    db.(lessons := Filter(db.lessons, LessonNot(id)),
        tasks := Filter(db.tasks, TasksNotOfLesson(id)),
        homeworks := Filter(db.homeworks, HomeworkNotOfLesson(id)))
  }

  lemma DeleteLessonForeignKeys(db: Db, id: nat)
    requires ForeignKeysValid(db)
    ensures ForeignKeysValid(DeleteLesson(db, id))
  {
    var r := DeleteLesson(db, id);
    var keepL := LessonNot(id);
    assert r.lessons == Filter(db.lessons, keepL);
    forall i | 0 <= i < |r.lessons| ensures HasKey(r.courses, CourseKey, r.lessons[i].courseId) {
      assert r.lessons[i] in db.lessons;
    }
    forall i | 0 <= i < |r.tasks| ensures HasKey(r.lessons, LessonKey, r.tasks[i].lessonId) {
      assert r.tasks[i] in db.tasks;
      HasKeyFilter(db.lessons, keepL, LessonKey, r.tasks[i].lessonId);
    }
    forall i | 0 <= i < |r.homeworks|
      ensures HasKey(r.users, UserKey, r.homeworks[i].userId) && HasKey(r.lessons, LessonKey, r.homeworks[i].lessonId)
    {
      assert r.homeworks[i] in db.homeworks;
      HasKeyFilter(db.lessons, keepL, LessonKey, r.homeworks[i].lessonId);
    }
  }

  lemma DeleteLessonValid(db: Db, id: nat)
    requires DbValid(db)
    ensures DbValid(DeleteLesson(db, id))
  {
    var r := DeleteLesson(db, id);
    var keepL := LessonNot(id);
    var keepT := TasksNotOfLesson(id);
    var keepH := HomeworkNotOfLesson(id);
    assert r.lessons == Filter(db.lessons, keepL);
    assert r.tasks == Filter(db.tasks, keepT);
    assert r.homeworks == Filter(db.homeworks, keepH);
    IdsAscendingFilter(db.lessons, keepL, LessonKey);
    IdsAscendingFilter(db.tasks, keepT, TasksKey);
    IdsAscendingFilter(db.homeworks, keepH, HomeworkKey);
    FilterKeepsKeysDistinct(db.homeworks, keepH, HomeworkPair);
    DeleteLessonForeignKeys(db, id);
  }

  /** DELETE FROM courses WHERE id = id: its enrollments and lessons are
      deleted (CASCADE), and with each lesson its task records and
      submissions (CASCADE again). */
  function DeleteCourse(db: Db, id: nat): (r: Db)
    ensures forall c :: c in r.courses <==> c in db.courses && c.id != id
    ensures forall e :: e in r.enrollments <==> e in db.enrollments && e.courseId != id
    ensures forall l :: l in r.lessons <==> l in db.lessons && l.courseId != id
    ensures forall t :: t in r.tasks <==> t in db.tasks && !HasKey(LessonsOf(db, id), LessonKey, t.lessonId)
    ensures forall h :: h in r.homeworks <==> h in db.homeworks && !HasKey(LessonsOf(db, id), LessonKey, h.lessonId)
    ensures r.users == db.users && r.leads == db.leads && r.sales == db.sales
  {
    var gone := LessonsOf(db, id);
    db.(courses := Filter(db.courses, CourseNot(id)),
        enrollments := Filter(db.enrollments, EnrollmentNotOfCourse(id)),
        lessons := Filter(db.lessons, LessonNotOfCourse(id)),
        tasks := Filter(db.tasks, TasksNotIn(gone)),
        homeworks := Filter(db.homeworks, HomeworkNotIn(gone)))
  }

  /** Under valid foreign keys, a lesson id that survives a course delete is
      the id of a lesson that survives it. */
  lemma SurvivingLesson(db: Db, id: nat, k: nat)
    requires IdsAscending(db.lessons, LessonKey)
    requires HasKey(db.lessons, LessonKey, k)
    requires !HasKey(LessonsOf(db, id), LessonKey, k)
    ensures HasKey(DeleteCourse(db, id).lessons, LessonKey, k)
  {
    var i :| 0 <= i < |db.lessons| && LessonKey(db.lessons[i]) == k;
    var l := db.lessons[i];
    if l.courseId == id {
      assert l in LessonsOf(db, id);
      HasKeyMember(LessonsOf(db, id), LessonKey, l);
      assert false;
    }
    assert l in DeleteCourse(db, id).lessons;
    HasKeyMember(DeleteCourse(db, id).lessons, LessonKey, l);
  }

  lemma DeleteCourseParentKeys(db: Db, id: nat)
    requires ForeignKeysValid(db)
    ensures var r := DeleteCourse(db, id);
      (forall i :: 0 <= i < |r.courses| ==>
         r.courses[i].teacherId.None? || HasKey(r.users, UserKey, r.courses[i].teacherId.value)) &&
      (forall i :: 0 <= i < |r.enrollments| ==>
         HasKey(r.users, UserKey, r.enrollments[i].userId) && HasKey(r.courses, CourseKey, r.enrollments[i].courseId)) &&
      (forall i :: 0 <= i < |r.lessons| ==> HasKey(r.courses, CourseKey, r.lessons[i].courseId))
  {
    var r := DeleteCourse(db, id);
    forall i | 0 <= i < |r.enrollments|
      ensures HasKey(r.users, UserKey, r.enrollments[i].userId) && HasKey(r.courses, CourseKey, r.enrollments[i].courseId)
    {
      assert r.enrollments[i] in db.enrollments;
      HasKeyFilter(db.courses, CourseNot(id), CourseKey, r.enrollments[i].courseId);
    }
    forall i | 0 <= i < |r.lessons| ensures HasKey(r.courses, CourseKey, r.lessons[i].courseId) {
      assert r.lessons[i] in db.lessons;
      HasKeyFilter(db.courses, CourseNot(id), CourseKey, r.lessons[i].courseId);
    }
    forall i | 0 <= i < |r.courses|
      ensures r.courses[i].teacherId.None? || HasKey(r.users, UserKey, r.courses[i].teacherId.value)
    {
      assert r.courses[i] in db.courses;
    }
  }

  lemma DeleteCourseTaskKeys(db: Db, id: nat)
    requires ForeignKeysValid(db) && IdsAscending(db.lessons, LessonKey)
    ensures var r := DeleteCourse(db, id);
      forall i :: 0 <= i < |r.tasks| ==> HasKey(r.lessons, LessonKey, r.tasks[i].lessonId)
  {
    var r := DeleteCourse(db, id);
    forall i | 0 <= i < |r.tasks| ensures HasKey(r.lessons, LessonKey, r.tasks[i].lessonId) {
      assert r.tasks[i] in db.tasks;
      SurvivingLesson(db, id, r.tasks[i].lessonId);
    }
  }

  lemma DeleteCourseHomeworkKeys(db: Db, id: nat)
    requires ForeignKeysValid(db) && IdsAscending(db.lessons, LessonKey)
    ensures var r := DeleteCourse(db, id);
      forall i :: 0 <= i < |r.homeworks| ==>
        HasKey(r.users, UserKey, r.homeworks[i].userId) && HasKey(r.lessons, LessonKey, r.homeworks[i].lessonId)
  {
    var r := DeleteCourse(db, id);
    forall i | 0 <= i < |r.homeworks|
      ensures HasKey(r.users, UserKey, r.homeworks[i].userId) && HasKey(r.lessons, LessonKey, r.homeworks[i].lessonId)
    {
      assert r.homeworks[i] in db.homeworks;
      SurvivingLesson(db, id, r.homeworks[i].lessonId);
    }
  }

  lemma DeleteCourseForeignKeys(db: Db, id: nat)
    requires ForeignKeysValid(db) && IdsAscending(db.lessons, LessonKey)
    ensures ForeignKeysValid(DeleteCourse(db, id))
  {
    DeleteCourseParentKeys(db, id);
    DeleteCourseTaskKeys(db, id);
    DeleteCourseHomeworkKeys(db, id);
  }

  lemma DeleteCourseValid(db: Db, id: nat)
    requires DbValid(db)
    ensures DbValid(DeleteCourse(db, id))
  {
    var gone := LessonsOf(db, id);
    IdsAscendingFilter(db.courses, CourseNot(id), CourseKey);
    IdsAscendingFilter(db.enrollments, EnrollmentNotOfCourse(id), EnrollmentKey);
    IdsAscendingFilter(db.lessons, LessonNotOfCourse(id), LessonKey);
    IdsAscendingFilter(db.tasks, TasksNotIn(gone), TasksKey);
    IdsAscendingFilter(db.homeworks, HomeworkNotIn(gone), HomeworkKey);
    FilterKeepsKeysDistinct(db.enrollments, EnrollmentNotOfCourse(id), EnrollmentPair);
    FilterKeepsKeysDistinct(db.homeworks, HomeworkNotIn(gone), HomeworkPair);
    DeleteCourseForeignKeys(db, id);
  }

  // ---------------------------------------------------------------------
  // Deletes on the schema as created. GORM creates one constraint per pair
  // of tables: where a has-many field (User.CoursesTaught,
  // User.EnrolledCourses, Course.Enrolled, Lesson.Tasks) uses the same key
  // as a belongs-to tag, the has-many constraint is created and the tag's
  // action is not, so those keys are NO ACTION: a delete that would leave
  // such a row behind fails as a whole and changes nothing. Lesson.Course
  // and both keys of UsersHomework keep their CASCADE.
  // ---------------------------------------------------------------------

  /** Rows whose NO ACTION key names user id: a course they teach or an
      enrollment of theirs. */
  predicate UserReferenced(db: Db, id: nat)
  {
    (exists i :: 0 <= i < |db.courses| && db.courses[i].teacherId == Some(id)) ||
    (exists i :: 0 <= i < |db.enrollments| && db.enrollments[i].userId == id)
  }

  /** DELETE FROM users WHERE id = id as the schema is created: refused
      while a course or an enrollment names the user; otherwise the user
      goes, and with them their submissions (CASCADE). */
  function DeleteUserAsWritten(db: Db, id: nat): (r: Option<Db>)
    ensures r.None? <==> HasKey(db.users, UserKey, id) && UserReferenced(db, id)
    ensures r.Some? ==> forall u :: u in r.value.users <==> u in db.users && u.id != id
    ensures r.Some? ==> forall h :: h in r.value.homeworks <==>
              h in db.homeworks && !(h.userId == id && HasKey(db.users, UserKey, id))
    ensures r.Some? ==> r.value.courses == db.courses && r.value.enrollments == db.enrollments
    ensures r.Some? ==> (r.value.lessons == db.lessons && r.value.tasks == db.tasks &&
                         r.value.leads == db.leads && r.value.sales == db.sales)
  {
    if !HasKey(db.users, UserKey, id) then
      assert forall u :: u in db.users ==> u.id != id by {
        forall u | u in db.users ensures u.id != id {
          HasKeyMember(db.users, UserKey, u);
        }
      }
      Some(db)
    else if UserReferenced(db, id) then None
    else Some(db.(users := Filter(db.users, UserNot(id)),
                  homeworks := Filter(db.homeworks, HomeworkNotOfUser(id))))
  }

  /** A row in the way of a user delete names a stored user. */
  lemma UserReferencedStored(db: Db, id: nat)
    requires ForeignKeysValid(db)
    requires UserReferenced(db, id)
    ensures HasKey(db.users, UserKey, id)
  {
    if i :| 0 <= i < |db.courses| && db.courses[i].teacherId == Some(id) {
    } else {
      var i :| 0 <= i < |db.enrollments| && db.enrollments[i].userId == id;
    }
  }

  /** Under valid foreign keys the schema refuses a user delete exactly
      when a row names the user by a NO ACTION key; otherwise it does what
      the tagged actions intend. */
  lemma DeleteUserAsWrittenAgrees(db: Db, id: nat)
    requires ForeignKeysValid(db)
    ensures DeleteUserAsWritten(db, id).None? <==> UserReferenced(db, id)
    ensures DeleteUserAsWritten(db, id).Some? ==> DeleteUserAsWritten(db, id).value == DeleteUser(db, id)
  {
    var d := DeleteUser(db, id);
    if UserReferenced(db, id) {
      UserReferencedStored(db, id);
    } else {
      forall e | e in db.enrollments ensures e.userId != id {
        var i :| 0 <= i < |db.enrollments| && db.enrollments[i] == e;
      }
      assert d.courses == db.courses by {
        forall i | 0 <= i < |db.courses| ensures d.courses[i] == db.courses[i] {
          assert db.courses[i].teacherId != Some(id);
        }
      }
      if !HasKey(db.users, UserKey, id) {
        forall h | h in db.homeworks ensures h.userId != id {
          var i :| 0 <= i < |db.homeworks| && db.homeworks[i] == h;
        }
        forall u | u in db.users ensures u.id != id {
          HasKeyMember(db.users, UserKey, u);
        }
      }
    }
  }

  /** An accepted user delete keeps every store invariant. */
  lemma DeleteUserAsWrittenValid(db: Db, id: nat)
    requires DbValid(db) && DeleteUserAsWritten(db, id).Some?
    ensures DbValid(DeleteUserAsWritten(db, id).value)
  {
    DeleteUserAsWrittenAgrees(db, id);
    DeleteUserValid(db, id);
  }

  /** The tagged SET NULL never happens: a teacher of a course cannot be
      deleted on the schema as created, where the tags intend the user to
      go and the course to stay without a teacher. */
  lemma TeacherDeleteRefused(db: Db, c: Course)
    requires ForeignKeysValid(db) && c in db.courses && c.teacherId.Some?
    ensures DeleteUserAsWritten(db, c.teacherId.value).None?
    ensures c.(teacherId := None) in DeleteUser(db, c.teacherId.value).courses
  {
    var i :| 0 <= i < |db.courses| && db.courses[i] == c;
    assert DeleteUser(db, c.teacherId.value).courses[i] == c.(teacherId := None);
  }

  /** A row whose NO ACTION key names lesson id: one of its task records. */
  predicate LessonReferenced(db: Db, id: nat)
  {
    exists i :: 0 <= i < |db.tasks| && db.tasks[i].lessonId == id
  }

  /** DELETE FROM lessons WHERE id = id as the schema is created: refused
      while a task record names the lesson; otherwise the lesson goes with
      its submissions (CASCADE). */
  function DeleteLessonAsWritten(db: Db, id: nat): (r: Option<Db>)
    ensures r.None? <==> HasKey(db.lessons, LessonKey, id) && LessonReferenced(db, id)
    ensures r.Some? ==> forall l :: l in r.value.lessons <==> l in db.lessons && l.id != id
    ensures r.Some? ==> forall h :: h in r.value.homeworks <==>
              h in db.homeworks && !(h.lessonId == id && HasKey(db.lessons, LessonKey, id))
    ensures r.Some? ==> (r.value.users == db.users && r.value.courses == db.courses &&
                         r.value.enrollments == db.enrollments && r.value.tasks == db.tasks &&
                         r.value.leads == db.leads && r.value.sales == db.sales)
  {
    if !HasKey(db.lessons, LessonKey, id) then
      assert forall l :: l in db.lessons ==> l.id != id by {
        forall l | l in db.lessons ensures l.id != id {
          HasKeyMember(db.lessons, LessonKey, l);
        }
      }
      Some(db)
    else if LessonReferenced(db, id) then None
    else Some(db.(lessons := Filter(db.lessons, LessonNot(id)),
                  homeworks := Filter(db.homeworks, HomeworkNotOfLesson(id))))
  }

  /** Under valid foreign keys the schema refuses a lesson delete exactly
      when a task record names the lesson; otherwise it does what the
      tagged actions intend. */
  lemma DeleteLessonAsWrittenAgrees(db: Db, id: nat)
    requires ForeignKeysValid(db)
    ensures DeleteLessonAsWritten(db, id).None? <==> LessonReferenced(db, id)
    ensures DeleteLessonAsWritten(db, id).Some? ==> DeleteLessonAsWritten(db, id).value == DeleteLesson(db, id)
  {
    if LessonReferenced(db, id) {
      var i :| 0 <= i < |db.tasks| && db.tasks[i].lessonId == id;
      assert HasKey(db.lessons, LessonKey, id);
    } else {
      forall t | t in db.tasks ensures t.lessonId != id {
        var i :| 0 <= i < |db.tasks| && db.tasks[i] == t;
      }
      if !HasKey(db.lessons, LessonKey, id) {
        forall h | h in db.homeworks ensures h.lessonId != id {
          var i :| 0 <= i < |db.homeworks| && db.homeworks[i] == h;
        }
        forall l | l in db.lessons ensures l.id != id {
          HasKeyMember(db.lessons, LessonKey, l);
        }
      }
    }
  }

  /** An accepted lesson delete keeps every store invariant. */
  lemma DeleteLessonAsWrittenValid(db: Db, id: nat)
    requires DbValid(db) && DeleteLessonAsWritten(db, id).Some?
    ensures DbValid(DeleteLessonAsWritten(db, id).value)
  {
    DeleteLessonAsWrittenAgrees(db, id);
    DeleteLessonValid(db, id);
  }

  /** Rows whose NO ACTION key names course id or one of the lessons its
      delete cascades to: an enrollment in it, or a task record of one of
      its lessons. */
  predicate CourseReferenced(db: Db, id: nat)
  {
    (exists i :: 0 <= i < |db.enrollments| && db.enrollments[i].courseId == id) ||
    (exists i :: 0 <= i < |db.tasks| && HasKey(LessonsOf(db, id), LessonKey, db.tasks[i].lessonId))
  }

  /** DELETE FROM courses WHERE id = id as the schema is created: refused
      while an enrollment names the course or a task record names one of
      its lessons; otherwise the course goes, its lessons with it (CASCADE)
      and their submissions with them (CASCADE). */
  function DeleteCourseAsWritten(db: Db, id: nat): (r: Option<Db>)
    ensures r.None? <==> HasKey(db.courses, CourseKey, id) && CourseReferenced(db, id)
    ensures r.Some? ==> forall c :: c in r.value.courses <==> c in db.courses && c.id != id
    ensures r.Some? ==> forall l :: l in r.value.lessons <==>
              l in db.lessons && !(l.courseId == id && HasKey(db.courses, CourseKey, id))
    ensures r.Some? ==> forall h :: h in r.value.homeworks <==>
              h in db.homeworks && !(HasKey(LessonsOf(db, id), LessonKey, h.lessonId) && HasKey(db.courses, CourseKey, id))
    ensures r.Some? ==> (r.value.users == db.users && r.value.enrollments == db.enrollments &&
                         r.value.tasks == db.tasks && r.value.leads == db.leads && r.value.sales == db.sales)
  {
    if !HasKey(db.courses, CourseKey, id) then
      assert forall c :: c in db.courses ==> c.id != id by {
        forall c | c in db.courses ensures c.id != id {
          HasKeyMember(db.courses, CourseKey, c);
        }
      }
      Some(db)
    else if CourseReferenced(db, id) then None
    else
      var gone := LessonsOf(db, id);
      Some(db.(courses := Filter(db.courses, CourseNot(id)),
               lessons := Filter(db.lessons, LessonNotOfCourse(id)),
               homeworks := Filter(db.homeworks, HomeworkNotIn(gone))))
  }

  /** A row in the way of a course delete names a stored course. */
  lemma CourseReferencedStored(db: Db, id: nat)
    requires ForeignKeysValid(db)
    requires CourseReferenced(db, id)
    ensures HasKey(db.courses, CourseKey, id)
  {
    if i :| 0 <= i < |db.enrollments| && db.enrollments[i].courseId == id {
    } else {
      var gone := LessonsOf(db, id);
      var i :| 0 <= i < |db.tasks| && HasKey(gone, LessonKey, db.tasks[i].lessonId);
      var j :| 0 <= j < |gone| && LessonKey(gone[j]) == db.tasks[i].lessonId;
      assert gone[j] in db.lessons;
      var k :| 0 <= k < |db.lessons| && db.lessons[k] == gone[j];
    }
  }

  /** Under valid foreign keys the schema refuses a course delete exactly
      when an enrollment or a task record stands in the way; otherwise it
      does what the tagged actions intend. */
  lemma DeleteCourseAsWrittenAgrees(db: Db, id: nat)
    requires ForeignKeysValid(db)
    ensures DeleteCourseAsWritten(db, id).None? <==> CourseReferenced(db, id)
    ensures DeleteCourseAsWritten(db, id).Some? ==> DeleteCourseAsWritten(db, id).value == DeleteCourse(db, id)
  {
    var gone := LessonsOf(db, id);
    if CourseReferenced(db, id) {
      CourseReferencedStored(db, id);
    } else {
      forall e | e in db.enrollments ensures e.courseId != id {
        var i :| 0 <= i < |db.enrollments| && db.enrollments[i] == e;
      }
      forall t | t in db.tasks ensures !HasKey(gone, LessonKey, t.lessonId) {
        var i :| 0 <= i < |db.tasks| && db.tasks[i] == t;
      }
      if !HasKey(db.courses, CourseKey, id) {
        forall l | l in db.lessons ensures l.courseId != id {
          var i :| 0 <= i < |db.lessons| && db.lessons[i] == l;
        }
        assert gone == [] by {
          FilterKeepsNone(db.lessons, LessonOfCourse(id));
        }
      }
    }
  }

  /** An accepted course delete keeps every store invariant. */
  lemma DeleteCourseAsWrittenValid(db: Db, id: nat)
    requires DbValid(db) && DeleteCourseAsWritten(db, id).Some?
    ensures DbValid(DeleteCourseAsWritten(db, id).value)
  {
    DeleteCourseAsWrittenAgrees(db, id);
    DeleteCourseValid(db, id);
  }

  /** The tagged CASCADE from courses to enrollments never happens: a
      course anyone is enrolled in cannot be deleted on the schema as
      created, where the tags intend it to go with its enrollments. */
  lemma EnrolledCourseDeleteRefused(db: Db, e: Enrollment)
    requires ForeignKeysValid(db) && e in db.enrollments
    ensures DeleteCourseAsWritten(db, e.courseId).None?
    ensures !HasKey(DeleteCourse(db, e.courseId).courses, CourseKey, e.courseId)
    ensures e !in DeleteCourse(db, e.courseId).enrollments
  {
    var i :| 0 <= i < |db.enrollments| && db.enrollments[i] == e;
    DeleteCourseAsWrittenAgrees(db, e.courseId);
    var r := DeleteCourse(db, e.courseId);
    forall j | 0 <= j < |r.courses| ensures CourseKey(r.courses[j]) != e.courseId {
      assert r.courses[j] in r.courses;
    }
  }

  // ---------------------------------------------------------------------
  // In-place updates (GORM Update / Updates / Save on existing rows): a
  // patch applied to the selected rows. A patch that leaves the key columns
  // alone keeps the database valid.
  // ---------------------------------------------------------------------

  function UserIs(id: nat): User -> bool { (u: User) => u.id == id }
  function HomeworkIs(id: nat): Homework -> bool { (h: Homework) => h.id == id }
  function TasksIs(id: nat): LessonTasks -> bool { (t: LessonTasks) => t.id == id }
  function SalesIs(id: nat): Sales -> bool { (x: Sales) => x.id == id }
  function EnrollmentIs(userId: nat, courseId: nat): Enrollment -> bool
  {
    (e: Enrollment) => e.userId == userId && e.courseId == courseId
  }

  lemma UpdateUsersValid(db: Db, sel: User -> bool, f: User -> User)
    requires DbValid(db)
    requires forall u :: f(u).id == u.id && f(u).email == u.email && f(u).role == u.role && (u.password.Bcrypt? ==> f(u).password.Bcrypt?)
    ensures DbValid(db.(users := UpdateWhere(db.users, sel, f)))
  {
    var r := UpdateWhere(db.users, sel, f);
    var g := (u: User) => if sel(u) then f(u) else u;
    assert r == MapRows(db.users, g);
    IdsAscendingMapRows(db.users, g, UserKey);
    MapRowsKeepsKeysDistinct(db.users, g, UserEmail);
    forall k | HasKey(db.users, UserKey, k) ensures HasKey(r, UserKey, k) {
      var i :| 0 <= i < |db.users| && UserKey(db.users[i]) == k;
      assert UserKey(r[i]) == k;
    }
  }

  lemma UpdateEnrollmentsValid(db: Db, sel: Enrollment -> bool, f: Enrollment -> Enrollment)
    requires DbValid(db)
    requires forall e :: f(e).id == e.id && f(e).userId == e.userId && f(e).courseId == e.courseId
    ensures DbValid(db.(enrollments := UpdateWhere(db.enrollments, sel, f)))
  {
    var g := (e: Enrollment) => if sel(e) then f(e) else e;
    assert UpdateWhere(db.enrollments, sel, f) == MapRows(db.enrollments, g);
    IdsAscendingMapRows(db.enrollments, g, EnrollmentKey);
    MapRowsKeepsKeysDistinct(db.enrollments, g, EnrollmentPair);
  }

  lemma UpdateTasksValid(db: Db, sel: LessonTasks -> bool, f: LessonTasks -> LessonTasks)
    requires DbValid(db)
    requires forall t :: f(t).id == t.id && f(t).lessonId == t.lessonId
    ensures DbValid(db.(tasks := UpdateWhere(db.tasks, sel, f)))
  {
    var g := (t: LessonTasks) => if sel(t) then f(t) else t;
    assert UpdateWhere(db.tasks, sel, f) == MapRows(db.tasks, g);
    IdsAscendingMapRows(db.tasks, g, TasksKey);
  }

  lemma UpdateHomeworksValid(db: Db, sel: Homework -> bool, f: Homework -> Homework)
    requires DbValid(db)
    requires forall h :: f(h).id == h.id && f(h).userId == h.userId && f(h).lessonId == h.lessonId
    ensures DbValid(db.(homeworks := UpdateWhere(db.homeworks, sel, f)))
  {
    var g := (h: Homework) => if sel(h) then f(h) else h;
    assert UpdateWhere(db.homeworks, sel, f) == MapRows(db.homeworks, g);
    IdsAscendingMapRows(db.homeworks, g, HomeworkKey);
    MapRowsKeepsKeysDistinct(db.homeworks, g, HomeworkPair);
  }

  lemma UpdateSalesValid(db: Db, sel: Sales -> bool, f: Sales -> Sales)
    requires DbValid(db)
    requires forall x :: f(x).id == x.id && f(x).leadId == x.leadId
    ensures DbValid(db.(sales := UpdateWhere(db.sales, sel, f)))
  {
    var g := (x: Sales) => if sel(x) then f(x) else x;
    assert UpdateWhere(db.sales, sel, f) == MapRows(db.sales, g);
    IdsAscendingMapRows(db.sales, g, SalesKey);
  }

  // ---------------------------------------------------------------------
  // The mutable store
  // ---------------------------------------------------------------------

  /** The database connection the handlers share. */
  class Store {
    var db: Db

    constructor ()
      ensures db == EmptyDb
    {
      db := EmptyDb;
    }
  }
}
