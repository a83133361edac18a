/** Course listing by role, course creation and deletion, enrolment of a
    student, removal of a participant and the batch payment update. */
module CourseHandlers {
  import opened Common
  import opened Models
  import opened Http
  import opened Endpoints

  /** The zero value of Course, answered when a single-course lookup misses. */
  const ZeroCourse: Course := Course(0, "", "", "", "", "", None)

  datatype CoursesReply = NoReply | OneCourse(course: Course) | CourseList(courses: seq<Course>)

  // ---------------------------------------------------------------------
  // Listing
  // ---------------------------------------------------------------------

  /** The student user id is enrolled in course c. */
  function EnrolledIn(db: Db, userId: nat): Course -> bool
  {
    (c: Course) => HasKey(db.enrollments, EnrollmentPair, (userId, c.id))
  }

  function TaughtBy(userId: nat): Course -> bool
  {
    (c: Course) => c.teacherId == Some(userId)
  }

  /** The courses the listing shows to the session user: a student's own
      courses, a teacher's own courses, every course for any other role.
      Rows come in stored order. */
  function VisibleCourses(db: Db, user: UserResponse): (r: seq<Course>)
    ensures user.role == "student" ==>
              forall c :: c in r <==> c in db.courses && exists e :: e in db.enrollments && e.userId == user.id && e.courseId == c.id
    ensures user.role == "teacher" ==>
              forall c :: c in r <==> c in db.courses && c.teacherId == Some(user.id)
    ensures user.role != "student" && user.role != "teacher" ==> r == db.courses
  {
    if user.role == "student" then
      var r := Filter(db.courses, EnrolledIn(db, user.id));
      assert forall c :: c in r <==> c in db.courses && exists e :: e in db.enrollments && e.userId == user.id && e.courseId == c.id by {
        forall c: Course ensures HasKey(db.enrollments, EnrollmentPair, (user.id, c.id)) <==>
                           exists e :: e in db.enrollments && e.userId == user.id && e.courseId == c.id
        {
          if e :| e in db.enrollments && e.userId == user.id && e.courseId == c.id {
            HasKeyMember(db.enrollments, EnrollmentPair, e);
          }
        }
      }
      r
    else if user.role == "teacher" then Filter(db.courses, TaughtBy(user.id))
    else db.courses
  }

  /** The course `WHERE id = n` finds, or the zero course. */
  function CourseById(db: Db, n: int): (c: Course)
    ensures c == ZeroCourse || (c in db.courses && c.id == n)
  {
    if n < 0 then ZeroCourse
    else
      match First(db.courses, CourseKey, n as nat)
      case Some(c) => c
      case None => ZeroCourse
  }

  /** GetCoursesHandler. A single course needs no session: 400 for an id
      Atoi refuses, 200 otherwise, with the zero course when none has that
      id. The listing needs a session user (500 without one). */
  method GetCourses(store: Store, ctx: Context, sess: Session, courseIdParam: string) returns (reply: CoursesReply)
    modifies ctx
    ensures courseIdParam != "" && Atoi(courseIdParam).None? ==>
              ctx.status == Written(old(ctx.status), 400) && reply == NoReply
    ensures courseIdParam != "" && Atoi(courseIdParam).Some? ==>
              ctx.status == Written(old(ctx.status), 200) && reply == OneCourse(CourseById(store.db, Atoi(courseIdParam).value))
    ensures courseIdParam == "" && !sess.value.UserSession? ==>
              ctx.status == Written(old(ctx.status), 500) && reply == NoReply && ctx.aborted
    ensures courseIdParam == "" && sess.value.UserSession? ==>
              ctx.status == Written(old(ctx.status), 200) && reply == CourseList(VisibleCourses(store.db, sess.value.user))
  {
    if courseIdParam != "" {
      var courseIdInt := Atoi(courseIdParam);
      if courseIdInt.None? {
        ctx.JSON(400);
        return NoReply;
      }
      reply := OneCourse(CourseById(store.db, courseIdInt.value));
      ctx.JSON(200);
      return;
    }
    if !sess.value.UserSession? {
      ctx.AbortWithStatusJSON(500);
      return NoReply;
    }
    reply := CourseList(VisibleCourses(store.db, sess.value.user));
    ctx.JSON(200);
  }

  /** A student's listing shows the course of each of their enrolments. */
  lemma StudentSeesEnrolledCourse(db: Db, user: UserResponse, e: Enrollment)
    requires DbValid(db)
    requires user.role == "student" && e in db.enrollments && e.userId == user.id
    ensures exists c :: c in VisibleCourses(db, user) && c.id == e.courseId
  {
    var i :| 0 <= i < |db.enrollments| && db.enrollments[i] == e;
    assert HasKey(db.courses, CourseKey, e.courseId);
    var k :| 0 <= k < |db.courses| && CourseKey(db.courses[k]) == e.courseId;
    assert db.courses[k] in db.courses;
  }

  // ---------------------------------------------------------------------
  // Course creation and deletion
  // ---------------------------------------------------------------------

  /** The multipart form of AddCourseHandler: each value is None when its
      key is absent. */
  datatype CourseForm = CourseForm(
    name: Option<string>, description: Option<string>, duration: Option<string>,
    teacherId: Option<string>, previewImage: Option<Upload>, price: Option<string>)

  predicate FormComplete(form: Option<CourseForm>)
  {
    form.Some? && form.value.name.Some? && form.value.description.Some? && form.value.duration.Some? &&
    form.value.teacherId.Some? && form.value.previewImage.Some? && form.value.price.Some?
  }

  /** The row AddCourseHandler inserts: the form's values, the stored
      image name (empty when the upload failed) and the teacher id as Go's
      uint conversion leaves it. */
  function NewCourseRow(form: CourseForm, image: string, teacher: int): (c: Course)
    requires form.name.Some? && form.description.Some? && form.duration.Some? && form.price.Some?
    ensures c.teacherId == Some(ToUint64(teacher)) && c.previewImage == image
    ensures c.name == form.name.value && c.description == form.description.value
    ensures c.duration == form.duration.value && c.price == form.price.value
  {
    Course(0, form.name.value, form.description.value, image, form.duration.value, form.price.value, Some(ToUint64(teacher)))
  }

  /** AddCourseHandler. The image is processed before the teacher id is
      read, and its error status does not stop the handler: a course with
      a refused image is still created, with an empty image name, under
      the image's 400. */
  method AddCourse(store: Store, ctx: Context, form: Option<CourseForm>)
    modifies store, ctx
    ensures !FormComplete(form) ==> ctx.status == Written(old(ctx.status), 400) && store.db == old(store.db)
    ensures FormComplete(form) && Atoi(form.value.teacherId.value).None? ==>
              ctx.status == Written(AfterUpload(old(ctx.status), Outcome(form.value.previewImage.value, false)), 400) &&
              store.db == old(store.db)
    ensures FormComplete(form) && Atoi(form.value.teacherId.value).Some? ==>
              var o := Outcome(form.value.previewImage.value, false);
              var r := CreateCourse(old(store.db), NewCourseRow(form.value, o.name, Atoi(form.value.teacherId.value).value));
              store.db == (if r.Some? then r.value else old(store.db)) &&
              ctx.status == Written(AfterUpload(old(ctx.status), o), if r.Some? then 200 else 500)
    ensures DbValid(old(store.db)) ==> DbValid(store.db)
  {
    if !FormComplete(form) {
      ctx.JSON(400);
      return;
    }
    var f := form.value;
    var filename := ProcessImageFile(f.previewImage.value, ctx, false);
    var teacherIdInt := Atoi(f.teacherId.value);
    if teacherIdInt.None? {
      ctx.JSON(400);
      return;
    }
    var r := CreateCourse(store.db, NewCourseRow(f, filename, teacherIdInt.value));
    if r.None? {
      ctx.JSON(500);
      return;
    }
    store.db := r.value;
    ctx.JSON(200);
  }

  /** A negative teacher id wraps to a value no user id reaches, so the
      insert fails on the teacher foreign key. */
  lemma NegativeTeacherRefused(db: Db, form: CourseForm, image: string, teacher: int)
    requires DbValid(db)
    requires form.name.Some? && form.description.Some? && form.duration.Some? && form.price.Some?
    requires -(TwoTo63 as int) <= teacher < 0
    ensures CreateCourse(db, NewCourseRow(form, image, teacher)).None?
  {
    var t := ToUint64(teacher);
    assert t >= TwoTo63;
    forall i | 0 <= i < |db.users| ensures UserKey(db.users[i]) != t {
      assert db.users[i].id < TwoTo63;
    }
  }

  /** DeleteCourseHandler: the id must be an unsigned decimal (400). The
      delete fails (500, nothing changes) when the driver cannot pass the id
      as a bigint or the schema refuses it; otherwise 200 and the course
      goes, with its lessons and their submissions. */
  method DeleteCourseById(store: Store, ctx: Context, idParam: string)
    modifies store, ctx
    ensures ParseUint(idParam).None? ==> ctx.status == Written(old(ctx.status), 400) && store.db == old(store.db)
    ensures ParseUint(idParam).Some? &&
            (ParseUint(idParam).value >= TwoTo63 || DeleteCourseAsWritten(old(store.db), ParseUint(idParam).value).None?) ==>
              ctx.status == Written(old(ctx.status), 500) && store.db == old(store.db)
    ensures ParseUint(idParam).Some? && ParseUint(idParam).value < TwoTo63 &&
            DeleteCourseAsWritten(old(store.db), ParseUint(idParam).value).Some? ==>
              ctx.status == Written(old(ctx.status), 200) &&
              store.db == DeleteCourseAsWritten(old(store.db), ParseUint(idParam).value).value
    ensures DbValid(old(store.db)) ==> DbValid(store.db)
  {
    var id := ParseUint(idParam);
    if id.None? {
      ctx.JSON(400);
      return;
    }
    var r := DeleteCourseAsWritten(store.db, id.value);
    if id.value >= TwoTo63 || r.None? {
      ctx.JSON(500);
      return;
    }
    if DbValid(store.db) {
      DeleteCourseAsWrittenValid(store.db, id.value);
    }
    store.db := r.value;
    ctx.JSON(200);
  }

  // ---------------------------------------------------------------------
  // Participants
  // ---------------------------------------------------------------------

  /** strconv.ParseUint's value with its error ignored: 0 for a malformed
      string, the largest uint64 for a numeral out of range. */
  function ParseUintIgnoringError(s: string): (v: nat)
    ensures v < TwoTo64
    ensures ParseUint(s).Some? ==> v == ParseUint(s).value
  {
    match ParseUint(s)
    case Some(n) => n
    case None => if |s| > 0 && AllDigits(s) then TwoTo64 - 1 else 0
  }

  datatype ParticipantBody = ParticipantBody(studentId: nat, courseDuration: string)

  /** The enrolment AddParticipantHandler inserts: unpaid, from now to now
      plus the duration in months. */
  function NewEnrollmentRow(studentId: nat, courseId: nat, months: nat, now: Instant): (e: Enrollment)
    requires months < TwoTo64
    ensures !e.paid && e.userId == studentId && e.courseId == courseId && e.startDate == now
    ensures months < TwoTo63 ==> e.endDate == now + months
  {
    Enrollment(0, studentId, courseId, now, now + ToInt64(months), false, 0)
  }

  /** The status AddParticipantHandler answers with. */
  function AddParticipantStatus(db: Db, idParam: string, body: Option<ParticipantBody>, now: Instant): int
  {
    if body.None? || body.value.studentId == 0 then 400
    else if HasKey(db.enrollments, EnrollmentPair, (body.value.studentId, ParseUintIgnoringError(idParam))) then 409
    else if ParseUint(body.value.courseDuration).None? then 400
    else if CreateEnrollment(db, NewEnrollmentRow(body.value.studentId, ParseUintIgnoringError(idParam),
                                                  ParseUint(body.value.courseDuration).value, now)).None? then 500
    else 200
  }

  /** AddParticipantHandler. */
  method AddParticipant(store: Store, ctx: Context, idParam: string, body: Option<ParticipantBody>, now: Instant)
    modifies store, ctx
    ensures ctx.status == Written(old(ctx.status), AddParticipantStatus(old(store.db), idParam, body, now))
    ensures AddParticipantStatus(old(store.db), idParam, body, now) != 200 ==> store.db == old(store.db)
    ensures AddParticipantStatus(old(store.db), idParam, body, now) == 200 ==>
              store.db == CreateEnrollment(old(store.db), NewEnrollmentRow(body.value.studentId, ParseUintIgnoringError(idParam),
                                                  ParseUint(body.value.courseDuration).value, now)).value
    ensures DbValid(old(store.db)) ==> DbValid(store.db)
  {
    var courseID := ParseUintIgnoringError(idParam);
    if body.None? || body.value.studentId == 0 {
      ctx.JSON(400);
      return;
    }
    var existing := First(store.db.enrollments, EnrollmentPair, (body.value.studentId, courseID));
    if existing.Some? {
      ctx.JSON(409);
      return;
    }
    var duration := ParseUint(body.value.courseDuration);
    if duration.None? {
      ctx.JSON(400);
      return;
    }
    var row := NewEnrollmentRow(body.value.studentId, courseID, duration.value, now);
    var r := CreateEnrollment(store.db, row);
    if r.None? {
      ctx.JSON(500);
      return;
    }
    assert EnrollmentPair(row) == (body.value.studentId, courseID);
    store.db := r.value;
    ctx.JSON(200);
  }

  /** After a successful enrolment the student has exactly one enrolment in
      the course, and it is the new unpaid row. */
  lemma EnrolledOnce(db: Db, idParam: string, body: Option<ParticipantBody>, now: Instant)
    requires DbValid(db)
    requires AddParticipantStatus(db, idParam, body, now) == 200
    ensures var row := NewEnrollmentRow(body.value.studentId, ParseUintIgnoringError(idParam),
                                        ParseUint(body.value.courseDuration).value, now);
            var db' := CreateEnrollment(db, row).value;
            DbValid(db') &&
            First(db'.enrollments, EnrollmentPair, (body.value.studentId, ParseUintIgnoringError(idParam))) ==
              Some(db'.enrollments[|db'.enrollments| - 1]) &&
            !db'.enrollments[|db'.enrollments| - 1].paid
  {
    var row := NewEnrollmentRow(body.value.studentId, ParseUintIgnoringError(idParam),
                                ParseUint(body.value.courseDuration).value, now);
    assert EnrollmentPair(row) == (body.value.studentId, ParseUintIgnoringError(idParam));
    var db' := CreateEnrollment(db, row).value;
    var e := db'.enrollments[|db'.enrollments| - 1];
    assert e in db'.enrollments;
    FirstUnique(db'.enrollments, EnrollmentPair, e);
  }

  function NotEnrollment(userId: nat, courseId: nat): Enrollment -> bool
  {
    (e: Enrollment) => !(e.userId == userId && e.courseId == courseId)
  }

  /** RemoveParticipantHandler: `DELETE ... WHERE course_id = ? AND user_id = ?`.
      Parameters the id columns cannot read make the statement fail (500). */
  method RemoveParticipant(store: Store, ctx: Context, courseParam: string, studentParam: string)
    modifies store, ctx
    ensures (Atoi(courseParam).None? || Atoi(studentParam).None?) ==>
              ctx.status == Written(old(ctx.status), 500) && store.db == old(store.db)
    ensures Atoi(courseParam).Some? && Atoi(studentParam).Some? ==>
              ctx.status == Written(old(ctx.status), 200) &&
              store.db.(enrollments := old(store.db).enrollments) == old(store.db) &&
              forall e :: e in store.db.enrollments <==>
                e in old(store.db).enrollments && !(e.courseId as int == Atoi(courseParam).value && e.userId as int == Atoi(studentParam).value)
    ensures DbValid(old(store.db)) ==> DbValid(store.db)
  {
    var courseID := Atoi(courseParam);
    var studentID := Atoi(studentParam);
    if courseID.None? || studentID.None? {
      ctx.JSON(500);
      return;
    }
    if courseID.value < 0 || studentID.value < 0 {
      ctx.JSON(200);
      return;
    }
    var keep := NotEnrollment(studentID.value as nat, courseID.value as nat);
    if DbValid(store.db) {
      RemoveEnrollmentsValid(store.db, keep);
    }
    store.db := store.db.(enrollments := Filter(store.db.enrollments, keep));
    ctx.JSON(200);
  }

  /** Removing enrolments keeps the database valid: nothing refers to them. */
  lemma RemoveEnrollmentsValid(db: Db, keep: Enrollment -> bool)
    requires DbValid(db)
    ensures DbValid(db.(enrollments := Filter(db.enrollments, keep)))
  {
    var r := db.(enrollments := Filter(db.enrollments, keep));
    IdsAscendingFilter(db.enrollments, keep, EnrollmentKey);
    FilterKeepsKeysDistinct(db.enrollments, keep, EnrollmentPair);
    forall i | 0 <= i < |r.enrollments|
      ensures HasKey(r.users, UserKey, r.enrollments[i].userId) && HasKey(r.courses, CourseKey, r.enrollments[i].courseId)
    {
      assert r.enrollments[i] in db.enrollments;
    }
  }

  // ---------------------------------------------------------------------
  // Payments
  // ---------------------------------------------------------------------

  datatype PaymentRequest = PaymentRequest(userId: nat, courseId: nat, paid: bool)

  /** The effect of one `Updates(&row)` on a selected enrolment: which
      fields a struct update writes is GORM's, so it is a parameter here,
      and all that is known of it is that the id, user and course columns
      keep their values. */
  type PaymentEffect = (Enrollment, PaymentRequest, Instant) -> Enrollment

  ghost predicate KeepsKeys(effect: PaymentEffect)
  {
    forall e, p, t :: effect(e, p, t).id == e.id && effect(e, p, t).userId == e.userId && effect(e, p, t).courseId == e.courseId
  }

  function Apply(effect: PaymentEffect, p: PaymentRequest, now: Instant): Enrollment -> Enrollment
  {
    (e: Enrollment) => effect(e, p, now)
  }

  /** The store after one payment request. */
  function PayOne(db: Db, p: PaymentRequest, now: Instant, effect: PaymentEffect): Db
  {
    db.(enrollments := UpdateWhere(db.enrollments, EnrollmentIs(p.userId, p.courseId), Apply(effect, p, now)))
  }

  /** The store after the requests, applied in order. */
  function ApplyPayments(db: Db, reqs: seq<PaymentRequest>, now: Instant, effect: PaymentEffect): Db
  {
    if |reqs| == 0 then db
    else PayOne(ApplyPayments(db, reqs[..|reqs| - 1], now, effect), reqs[|reqs| - 1], now, effect)
  }

  /** No request names the pair. */
  predicate Unnamed(reqs: seq<PaymentRequest>, pair: (nat, nat))
  {
    forall k :: 0 <= k < |reqs| ==> (reqs[k].userId, reqs[k].courseId) != pair
  }

  /** A request touches only the enrolment of its own (user, course) pair:
      the other tables, the number and order of enrolments, their keys, and
      every enrolment no request names are as before. */
  lemma {:induction false} PaymentsTouchOnlyNamed(db: Db, reqs: seq<PaymentRequest>, now: Instant, effect: PaymentEffect)
    requires KeepsKeys(effect)
    ensures var r := ApplyPayments(db, reqs, now, effect);
      r.(enrollments := db.enrollments) == db && |r.enrollments| == |db.enrollments| &&
      (forall i :: 0 <= i < |db.enrollments| ==>
         r.enrollments[i].id == db.enrollments[i].id &&
         EnrollmentPair(r.enrollments[i]) == EnrollmentPair(db.enrollments[i])) &&
      (forall i :: 0 <= i < |db.enrollments| && Unnamed(reqs, EnrollmentPair(db.enrollments[i])) ==>
         r.enrollments[i] == db.enrollments[i])
  {
    if |reqs| > 0 {
      var init := reqs[..|reqs| - 1];
      PaymentsTouchOnlyNamed(db, init, now, effect);
      forall i | 0 <= i < |db.enrollments| && Unnamed(reqs, EnrollmentPair(db.enrollments[i]))
        ensures Unnamed(init, EnrollmentPair(db.enrollments[i]))
      {
        forall k | 0 <= k < |init| ensures (init[k].userId, init[k].courseId) != EnrollmentPair(db.enrollments[i]) {
          assert init[k] == reqs[k];
        }
      }
    }
  }

  lemma {:induction false} PaymentsKeepValid(db: Db, reqs: seq<PaymentRequest>, now: Instant, effect: PaymentEffect)
    requires KeepsKeys(effect)
    requires DbValid(db)
    ensures DbValid(ApplyPayments(db, reqs, now, effect))
  {
    if |reqs| > 0 {
      var p := reqs[|reqs| - 1];
      PaymentsKeepValid(db, reqs[..|reqs| - 1], now, effect);
      UpdateEnrollmentsValid(ApplyPayments(db, reqs[..|reqs| - 1], now, effect), EnrollmentIs(p.userId, p.courseId), Apply(effect, p, now));
    }
  }

  /** UpdateStudentPayments: 400 when the body does not bind, otherwise
      every request is applied in order and the answer is 200. */
  method UpdateStudentPayments(store: Store, ctx: Context, request: Option<seq<PaymentRequest>>, now: Instant, effect: PaymentEffect)
    requires KeepsKeys(effect)
    modifies store, ctx
    ensures request.None? ==> ctx.status == Written(old(ctx.status), 400) && store.db == old(store.db)
    ensures request.Some? ==>
              ctx.status == Written(old(ctx.status), 200) && store.db == ApplyPayments(old(store.db), request.value, now, effect)
    ensures DbValid(old(store.db)) ==> DbValid(store.db)
  {
    if request.None? {
      ctx.JSON(400);
      return;
    }
    var reqs := request.value;
    var i := 0;
    while i < |reqs|
      invariant 0 <= i <= |reqs|
      invariant store.db == ApplyPayments(old(store.db), reqs[..i], now, effect)
      invariant ctx.status == old(ctx.status)
    {
      var payment := reqs[i];
      assert reqs[..i + 1][..i] == reqs[..i];
      store.db := store.db.(enrollments := UpdateWhere(store.db.enrollments,
                                                       EnrollmentIs(payment.userId, payment.courseId),
                                                       Apply(effect, payment, now)));
      i := i + 1;
    }
    assert reqs[..|reqs|] == reqs;
    if DbValid(old(store.db)) {
      PaymentsKeepValid(old(store.db), reqs, now, effect);
    }
    ctx.JSON(200);
  }
}
