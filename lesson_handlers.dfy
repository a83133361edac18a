/** Lessons of a course, the teacher's task files of a lesson, screen
    recordings, the students' homework submissions and their grading.
    Multipart forms arrive already parsed (None when parsing failed); each
    value field is the list of values sent under that key, each file field
    the list of files. */
module LessonHandlers {
  import opened Common
  import opened Models
  import opened Http
  import opened Endpoints

  // ---------------------------------------------------------------------
  // Lessons
  // ---------------------------------------------------------------------

  datatype LessonRequest = LessonRequest(name: string, description: string, courseId: nat)

  /** The row AddLessonHandler inserts; the start date is the column default. */
  function NewLessonRow(req: LessonRequest, now: Instant): (l: Lesson)
    ensures l.courseId == req.courseId && l.name == req.name && l.description == req.description
    ensures l.startDate == now
  {
    Lesson(0, req.courseId, req.name, req.description, now)
  }

  /** AddLessonHandler: 400 when the body does not bind, 500 when the insert
      fails (no such course), otherwise 200 with the stored lesson. */
  method AddLesson(store: Store, ctx: Context, req: Option<LessonRequest>, now: Instant) returns (lesson: Option<Lesson>)
    modifies store, ctx
    ensures req.None? ==> ctx.status == Written(old(ctx.status), 400) && store.db == old(store.db) && lesson.None?
    ensures req.Some? ==>
              var r := CreateLesson(old(store.db), NewLessonRow(req.value, now));
              store.db == (if r.Some? then r.value else old(store.db)) &&
              ctx.status == Written(old(ctx.status), if r.Some? then 200 else 500) &&
              (lesson.Some? <==> r.Some?) &&
              (r.Some? ==> lesson.value == r.value.lessons[|r.value.lessons| - 1])
    ensures DbValid(old(store.db)) ==> DbValid(store.db)
  {
    if req.None? {
      ctx.JSON(400);
      return None;
    }
    var r := CreateLesson(store.db, NewLessonRow(req.value, now));
    if r.None? {
      ctx.JSON(500);
      return None;
    }
    store.db := r.value;
    lesson := Some(store.db.lessons[|store.db.lessons| - 1]);
    ctx.JSON(200);
  }

  /** A lesson just added is listed among its course's lessons. */
  lemma AddedLessonListed(db: Db, req: LessonRequest, now: Instant)
    requires CreateLesson(db, NewLessonRow(req, now)).Some?
    ensures var db' := CreateLesson(db, NewLessonRow(req, now)).value;
            var l := db'.lessons[|db'.lessons| - 1];
            l in LessonsOf(db', req.courseId) && l.name == req.name && l.id !in set m | m in db.lessons :: m.id
  {
    var db' := CreateLesson(db, NewLessonRow(req, now)).value;
    var l := db'.lessons[|db'.lessons| - 1];
    assert l in db'.lessons;
    NextIdFresh(db.lessons, LessonKey);
  }

  /** DeleteLessonHandler: `DELETE FROM lessons WHERE id = ?` with the path
      parameter. A parameter the id column cannot read fails the statement
      (500), and so does a lesson the schema refuses to delete; an id no
      lesson has deletes nothing (200). */
  method DeleteLessonById(store: Store, ctx: Context, idParam: string)
    modifies store, ctx
    ensures Atoi(idParam).None? ==> ctx.status == Written(old(ctx.status), 500) && store.db == old(store.db)
    ensures Atoi(idParam).Some? && Atoi(idParam).value < 0 ==>
              ctx.status == Written(old(ctx.status), 200) && store.db == old(store.db)
    ensures Atoi(idParam).Some? && Atoi(idParam).value >= 0 &&
            DeleteLessonAsWritten(old(store.db), Atoi(idParam).value as nat).None? ==>
              ctx.status == Written(old(ctx.status), 500) && store.db == old(store.db)
    ensures Atoi(idParam).Some? && Atoi(idParam).value >= 0 &&
            DeleteLessonAsWritten(old(store.db), Atoi(idParam).value as nat).Some? ==>
              ctx.status == Written(old(ctx.status), 200) &&
              store.db == DeleteLessonAsWritten(old(store.db), Atoi(idParam).value as nat).value
    ensures DbValid(old(store.db)) ==> DbValid(store.db)
  {
    var id := Atoi(idParam);
    if id.None? {
      ctx.JSON(500);
      return;
    }
    if id.value >= 0 {
      var r := DeleteLessonAsWritten(store.db, id.value as nat);
      if r.None? {
        ctx.JSON(500);
        return;
      }
      if DbValid(store.db) {
        DeleteLessonAsWrittenValid(store.db, id.value as nat);
      }
      store.db := r.value;
    }
    ctx.JSON(200);
  }

  // ---------------------------------------------------------------------
  // Access to a course's lessons
  // ---------------------------------------------------------------------

  function CourseTeacherAndId(c: Course): (Option<nat>, nat) { (c.teacherId, c.id) }

  /** checkCourseEnrollment: a teacher may see the lessons of a course they
      teach, anyone else those of a course they are enrolled in; the second
      component is the reason given when access is refused. */
  function CheckCourseEnrollment(db: Db, userId: nat, courseId: int, role: string): (r: (bool, string))
    ensures role == "teacher" ==>
              (r.0 <==> exists c :: c in db.courses && c.teacherId == Some(userId) && c.id == courseId)
    ensures role != "teacher" ==>
              (r.0 <==> exists e :: e in db.enrollments && e.userId == userId && e.courseId == courseId)
    ensures r.0 ==> r.1 == ""
    ensures !r.0 && role == "teacher" ==> r.1 == "Course not found or you are not the teacher"
    ensures !r.0 && role != "teacher" ==> r.1 == "You are not enrolled in this course"
  {
    if role == "teacher" then
      var found := courseId >= 0 && HasKey(db.courses, CourseTeacherAndId, (Some(userId), courseId as nat));
      assert found <==> exists c :: c in db.courses && c.teacherId == Some(userId) && c.id == courseId by {
        if c :| c in db.courses && c.teacherId == Some(userId) && c.id == courseId {
          HasKeyMember(db.courses, CourseTeacherAndId, c);
        }
      }
      if found then (true, "") else (false, "Course not found or you are not the teacher")
    else
      var found := courseId >= 0 && HasKey(db.enrollments, EnrollmentPair, (userId, courseId as nat));
      assert found <==> exists e :: e in db.enrollments && e.userId == userId && e.courseId == courseId by {
        if e :| e in db.enrollments && e.userId == userId && e.courseId == courseId {
          HasKeyMember(db.enrollments, EnrollmentPair, e);
        }
      }
      if found then (true, "") else (false, "You are not enrolled in this course")
  }

  /** The lessons `WHERE course_id = ?` finds for a parsed id. */
  function LessonsOfId(db: Db, courseId: int): (r: seq<Lesson>)
    ensures forall l :: l in r <==> l in db.lessons && l.courseId == courseId
  {
    if courseId < 0 then [] else LessonsOf(db, courseId as nat)
  }

  /** GetLessonsHandler. */
  method GetLessons(store: Store, ctx: Context, sess: Session, courseParam: string) returns (lessons: Option<seq<Lesson>>)
    modifies ctx
    ensures !sess.value.UserSession? ==> ctx.status == Written(old(ctx.status), 401) && lessons.None?
    ensures sess.value.UserSession? && Atoi(courseParam).None? ==>
              ctx.status == Written(old(ctx.status), 400) && lessons.None?
    ensures sess.value.UserSession? && Atoi(courseParam).Some? ==>
              var u := sess.value.user;
              var allowed := CheckCourseEnrollment(store.db, u.id, Atoi(courseParam).value, u.role).0;
              ctx.status == Written(old(ctx.status), if allowed then 200 else 401) &&
              lessons == (if allowed then Some(LessonsOfId(store.db, Atoi(courseParam).value)) else None)
  {
    if sess.value.NoUser? {
      ctx.JSON(401);
      return None;
    }
    if !sess.value.UserSession? {
      ctx.JSON(401);
      return None;
    }
    var userData := sess.value.user;
    var courseID := Atoi(courseParam);
    if courseID.None? {
      ctx.JSON(400);
      return None;
    }
    var check := CheckCourseEnrollment(store.db, userData.id, courseID.value, userData.role);
    if !check.0 {
      ctx.JSON(401);
      return None;
    }
    lessons := Some(LessonsOfId(store.db, courseID.value));
    ctx.JSON(200);
  }

  /** A student enrolled by an insert passes the access check for that
      course from then on. */
  lemma EnrolledStudentSeesLessons(db: Db, row: Enrollment, role: string)
    requires role != "teacher"
    requires CreateEnrollment(db, row).Some?
    ensures CheckCourseEnrollment(CreateEnrollment(db, row).value, row.userId, row.courseId, role).0
  {
    var db' := CreateEnrollment(db, row).value;
    var e := db'.enrollments[|db'.enrollments| - 1];
    assert e in db'.enrollments && e.userId == row.userId && e.courseId == row.courseId;
  }

  // ---------------------------------------------------------------------
  // Task files of a lesson
  // ---------------------------------------------------------------------

  /** The multipart form of AddTasksHandler. */
  datatype TasksForm = TasksForm(lessonId: seq<string>, homeworkFiles: seq<Upload>, classworkFiles: seq<Upload>)

  /** The task record AddTasksHandler inserts: the lesson id as Go's uint
      conversion leaves it and the names the two upload loops return. */
  function NewTasksRow(lessonId: int, form: TasksForm): (t: LessonTasks)
    ensures t.lessonId == ToUint64(lessonId)
    ensures t.homework == UploadNames(form.homeworkFiles, true) && t.classwork == UploadNames(form.classworkFiles, true)
  {
    LessonTasks(0, ToUint64(lessonId), UploadNames(form.homeworkFiles, true), UploadNames(form.classworkFiles, true))
  }

  /** The form is accepted up to the upload loops: it parsed, holds a
      lessonId value and that value is a decimal integer. */
  predicate TasksFormReadable(form: Option<TasksForm>)
  {
    form.Some? && |form.value.lessonId| > 0 && Atoi(form.value.lessonId[0]).Some?
  }

  /** AddTasksHandler. Both upload loops run before the insert; their first
      error status, if any, is the response's status, and the record is
      still inserted, with "" for each file that was not stored. */
  method AddTasks(store: Store, ctx: Context, form: Option<TasksForm>)
    modifies store, ctx
    ensures !TasksFormReadable(form) ==> ctx.status == Written(old(ctx.status), 400) && store.db == old(store.db)
    ensures TasksFormReadable(form) ==>
              var f := form.value;
              var r := CreateTasks(old(store.db), NewTasksRow(Atoi(f.lessonId[0]).value, f));
              var uploaded := UploadsStatus(UploadsStatus(old(ctx.status), f.homeworkFiles, true), f.classworkFiles, true);
              store.db == (if r.Some? then r.value else old(store.db)) &&
              ctx.status == Written(uploaded, if r.Some? then 200 else 500)
    ensures DbValid(old(store.db)) ==> DbValid(store.db)
  {
    if form.None? {
      ctx.JSON(400);
      return;
    }
    var f := form.value;
    if |f.lessonId| == 0 {
      ctx.JSON(400);
      return;
    }
    var lessonIdInt := Atoi(f.lessonId[0]);
    if lessonIdInt.None? {
      ctx.JSON(400);
      return;
    }
    var homework := ProcessUploads(f.homeworkFiles, ctx, true);
    var classwork := ProcessUploads(f.classworkFiles, ctx, true);
    var tasks := LessonTasks(0, ToUint64(lessonIdInt.value), homework, classwork);
    var r := CreateTasks(store.db, tasks);
    if r.None? {
      ctx.JSON(500);
      return;
    }
    store.db := r.value;
    ctx.JSON(200);
  }

  /** The names a task record lists are the sanitised original names of
      the uploaded files, in upload order, "" for a file whose save failed. */
  lemma TasksRowNames(lessonId: int, form: TasksForm)
    ensures var t := NewTasksRow(lessonId, form);
      |t.homework| == |form.homeworkFiles| &&
      forall k :: 0 <= k < |t.homework| ==>
        t.homework[k] == (if form.homeworkFiles[k].saveOk then Sanitize(form.homeworkFiles[k].filename) else "")
    ensures var t := NewTasksRow(lessonId, form);
      |t.classwork| == |form.classworkFiles| &&
      forall k :: 0 <= k < |t.classwork| ==>
        t.classwork[k] == (if form.classworkFiles[k].saveOk then Sanitize(form.classworkFiles[k].filename) else "")
  {
    UploadNamesSpec(form.homeworkFiles, true);
    UploadNamesSpec(form.classworkFiles, true);
    forall k | 0 <= k < |form.homeworkFiles| {
      OutcomeSpec(form.homeworkFiles[k], true);
    }
    forall k | 0 <= k < |form.classworkFiles| {
      OutcomeSpec(form.classworkFiles[k], true);
    }
  }

  /** A negative lesson id wraps to a value no lesson id reaches, so the
      insert fails on the lesson foreign key (500). */
  lemma NegativeLessonIdRefused(db: Db, lessonId: int, form: TasksForm)
    requires DbValid(db)
    requires -(TwoTo63 as int) <= lessonId < 0
    ensures CreateTasks(db, NewTasksRow(lessonId, form)).None?
  {
    assert ToUint64(lessonId) >= TwoTo63;
    forall i | 0 <= i < |db.lessons| ensures LessonKey(db.lessons[i]) != ToUint64(lessonId) {
      assert db.lessons[i].id < TwoTo63;
    }
  }

  function TasksHomework(t: LessonTasks): seq<string> { t.homework }
  function TasksClasswork(t: LessonTasks): seq<string> { t.classwork }
  function TasksOfLesson(id: nat): LessonTasks -> bool { (t: LessonTasks) => t.lessonId == id }

  /** The task records `WHERE lesson_id = ?` finds for a parsed id. */
  function TasksOfId(db: Db, lessonId: int): (r: seq<LessonTasks>)
    ensures forall t :: t in r <==> t in db.tasks && t.lessonId == lessonId
  {
    if lessonId < 0 then [] else Filter(db.tasks, TasksOfLesson(lessonId as nat))
  }

  /** The one record GetLessonTasksHandler answers with: id and lesson id
      both the requested id (as uint), and the files of every record of the
      lesson, concatenated in stored order. */
  function MergedTasks(db: Db, lessonId: int): LessonTasks
  {
    var ts := TasksOfId(db, lessonId);
    LessonTasks(ToUint64(lessonId), ToUint64(lessonId), Flatten(ts, |ts|, TasksHomework), Flatten(ts, |ts|, TasksClasswork))
  }

  /** The nested loops that merge the records' file lists. */
  method MergeTasks(lessonId: int, ts: seq<LessonTasks>) returns (merged: LessonTasks)
    ensures merged == LessonTasks(ToUint64(lessonId), ToUint64(lessonId), Flatten(ts, |ts|, TasksHomework), Flatten(ts, |ts|, TasksClasswork))
  {
    var homework: seq<string> := [];
    var classwork: seq<string> := [];
    var i := 0;
    while i < |ts|
      invariant 0 <= i <= |ts|
      invariant homework == Flatten(ts, i, TasksHomework)
      invariant classwork == Flatten(ts, i, TasksClasswork)
    {
      var task := ts[i];
      var j := 0;
      while j < |task.homework|
        invariant 0 <= j <= |task.homework|
        invariant homework == Flatten(ts, i, TasksHomework) + task.homework[..j]
      {
        homework := homework + [task.homework[j]];
        j := j + 1;
      }
      assert task.homework[..j] == TasksHomework(ts[i]);
      j := 0;
      while j < |task.classwork|
        invariant 0 <= j <= |task.classwork|
        invariant classwork == Flatten(ts, i, TasksClasswork) + task.classwork[..j]
      {
        classwork := classwork + [task.classwork[j]];
        j := j + 1;
      }
      assert task.classwork[..j] == TasksClasswork(ts[i]);
      i := i + 1;
    }
    merged := LessonTasks(ToUint64(lessonId), ToUint64(lessonId), homework, classwork);
  }

  /** GetLessonTasksHandler: 400 for a lesson id that is not a decimal
      integer, otherwise 200 with the merged record (empty lists when the
      lesson has no records). */
  method GetLessonTasks(store: Store, ctx: Context, idParam: string) returns (reply: Option<LessonTasks>)
    modifies ctx
    ensures Atoi(idParam).None? ==> ctx.status == Written(old(ctx.status), 400) && reply.None?
    ensures Atoi(idParam).Some? ==>
              ctx.status == Written(old(ctx.status), 200) && reply == Some(MergedTasks(store.db, Atoi(idParam).value))
  {
    var lessonIdInt := Atoi(idParam);
    if lessonIdInt.None? {
      ctx.JSON(400);
      return None;
    }
    var lessontasks := TasksOfId(store.db, lessonIdInt.value);
    var merged := MergeTasks(lessonIdInt.value, lessontasks);
    reply := Some(merged);
    ctx.JSON(200);
  }

  /** A file name is in the merged homework list exactly when some record
      of that lesson lists it, and likewise for classwork. */
  lemma MergedTasksMembers(db: Db, lessonId: int, name: string)
    ensures name in MergedTasks(db, lessonId).homework <==>
              exists t :: t in db.tasks && t.lessonId == lessonId && name in t.homework
    ensures name in MergedTasks(db, lessonId).classwork <==>
              exists t :: t in db.tasks && t.lessonId == lessonId && name in t.classwork
  {
    var ts := TasksOfId(db, lessonId);
    FlattenMember(ts, |ts|, TasksHomework, name);
    FlattenMember(ts, |ts|, TasksClasswork, name);
    if t :| t in db.tasks && t.lessonId == lessonId && name in t.homework {
      var i :| 0 <= i < |ts| && ts[i] == t;
      assert name in TasksHomework(ts[i]);
    }
    if t :| t in db.tasks && t.lessonId == lessonId && name in t.classwork {
      var i :| 0 <= i < |ts| && ts[i] == t;
      assert name in TasksClasswork(ts[i]);
    }
  }

  // ---------------------------------------------------------------------
  // Screen recordings
  // ---------------------------------------------------------------------

  /** The multipart form of ScreenRecordHandler: the lessonId and
      screenrecord_name values and the screenrecord file, if sent. */
  datatype RecordForm = RecordForm(lessonId: seq<string>, recordName: seq<string>, file: Option<Upload>)

  function AddClasswork(name: string): LessonTasks -> LessonTasks
  {
    (t: LessonTasks) => t.(classwork := t.classwork + [name])
  }

  /** The first task record of the lesson `WHERE lesson_id = ?` finds. */
  function FirstTasksOf(db: Db, lessonId: int): (r: Option<LessonTasks>)
    ensures r.Some? <==> exists t :: t in db.tasks && t.lessonId == lessonId
    ensures r.Some? ==> r.value in db.tasks && r.value.lessonId == lessonId
  {
    if lessonId < 0 then None
    else
      var r := First(db.tasks, TasksLesson, lessonId as nat);
      assert r.Some? <==> exists t :: t in db.tasks && t.lessonId == lessonId by {
        if t :| t in db.tasks && t.lessonId == lessonId {
          HasKeyMember(db.tasks, TasksLesson, t);
        }
      }
      r
  }

  /** The store after the recording's name is appended to the classwork of
      the record with that id. */
  function WithRecording(db: Db, id: nat, name: string): Db
  {
    db.(tasks := UpdateWhere(db.tasks, TasksIs(id), AddClasswork(name)))
  }

  /** ScreenRecordHandler. The recording is stored under the name the form
      gives for it (sanitised), before the lesson's record is looked up; a
      form without that name makes the handler panic (500). Only the first
      record of the lesson receives the name. */
  method ScreenRecord(store: Store, ctx: Context, form: Option<RecordForm>)
    modifies store, ctx
    ensures (form.None? || |form.value.lessonId| == 0 || Atoi(form.value.lessonId[0]).None? || form.value.file.None?) ==>
              ctx.status == Written(old(ctx.status), 400) && store.db == old(store.db)
    ensures form.Some? && |form.value.lessonId| > 0 && Atoi(form.value.lessonId[0]).Some? && form.value.file.Some? ==>
              var f := form.value;
              if |f.recordName| == 0 then
                ctx.status == Written(old(ctx.status), 500) && ctx.aborted && store.db == old(store.db)
              else
                var o := Outcome(f.file.value.(filename := f.recordName[0]), true);
                var t := FirstTasksOf(old(store.db), Atoi(f.lessonId[0]).value);
                ctx.status == Written(AfterUpload(old(ctx.status), o), if t.Some? then 200 else 400) &&
                store.db == (if t.Some? then WithRecording(old(store.db), t.value.id, o.name) else old(store.db))
    ensures DbValid(old(store.db)) ==> DbValid(store.db)
  {
    if form.None? {
      ctx.JSON(400);
      return;
    }
    var f := form.value;
    if |f.lessonId| == 0 {
      ctx.JSON(400);
      return;
    }
    var lessonIdInt := Atoi(f.lessonId[0]);
    if lessonIdInt.None? {
      ctx.JSON(400);
      return;
    }
    if f.file.None? {
      ctx.JSON(400);
      return;
    }
    if |f.recordName| == 0 {
      ctx.Recover();
      return;
    }
    var file := f.file.value.(filename := f.recordName[0]);
    var filename := ProcessImageFile(file, ctx, true);
    var lesson := FirstTasksOf(store.db, lessonIdInt.value);
    if lesson.None? {
      ctx.JSON(400);
      return;
    }
    if DbValid(store.db) {
      UpdateTasksValid(store.db, TasksIs(lesson.value.id), AddClasswork(filename));
    }
    store.db := WithRecording(store.db, lesson.value.id, filename);
    ctx.JSON(200);
  }

  /** With distinct record ids, a recording lands in exactly one record:
      that record's classwork gains the one name at its end, every other
      record is unchanged. */
  lemma RecordingAppendedOnce(db: Db, t: LessonTasks, name: string)
    requires DbValid(db)
    requires t in db.tasks
    ensures var db' := WithRecording(db, t.id, name);
      |db'.tasks| == |db.tasks| &&
      forall i :: 0 <= i < |db.tasks| ==>
        db'.tasks[i] == (if db.tasks[i] == t then t.(classwork := t.classwork + [name]) else db.tasks[i])
  {
    IdsAscendingKeysDistinct(db.tasks, TasksKey);
    var k :| 0 <= k < |db.tasks| && db.tasks[k] == t;
    forall i | 0 <= i < |db.tasks| && db.tasks[i] != t ensures db.tasks[i].id != t.id {
      assert TasksKey(db.tasks[i]) != TasksKey(db.tasks[k]);
    }
  }

  // ---------------------------------------------------------------------
  // Homework submissions
  // ---------------------------------------------------------------------

  /** The multipart form of SubmitHomeworkHandler. */
  datatype HomeworkForm = HomeworkForm(userId: seq<string>, lessonId: seq<string>, files: seq<Upload>)

  /** The submission `WHERE user_id = ? AND lesson_id = ?` finds first. */
  function SubmissionOf(db: Db, userId: int, lessonId: int): (r: Option<Homework>)
    ensures r.Some? <==> exists h :: h in db.homeworks && h.userId == userId && h.lessonId == lessonId
    ensures r.Some? ==> r.value in db.homeworks && r.value.userId == userId && r.value.lessonId == lessonId
  {
    if userId < 0 || lessonId < 0 then None
    else
      var r := First(db.homeworks, HomeworkPair, (userId as nat, lessonId as nat));
      assert r.Some? <==> exists h :: h in db.homeworks && h.userId == userId && h.lessonId == lessonId by {
        if h :| h in db.homeworks && h.userId == userId && h.lessonId == lessonId {
          HasKeyMember(db.homeworks, HomeworkPair, h);
        }
      }
      r
  }

  /** The submission row SubmitHomeworkHandler inserts: ungraded, no points,
      no comment, dated now. */
  function NewHomeworkRow(userId: int, lessonId: int, names: seq<string>, now: Instant): (h: Homework)
    ensures h.userId == ToUint64(userId) && h.lessonId == ToUint64(lessonId) && h.files == names
    ensures h.points == 0 && !h.checked && h.comment == "" && h.startDate == now
  {
    Homework(0, ToUint64(userId), ToUint64(lessonId), names, now, 0, false, "")
  }

  /** The ids the form carries, when both are present and decimal integers. */
  predicate SubmissionReadable(form: Option<HomeworkForm>)
  {
    form.Some? && |form.value.userId| > 0 && Atoi(form.value.userId[0]).Some? &&
    |form.value.lessonId| > 0 && Atoi(form.value.lessonId[0]).Some?
  }

  /** SubmitHomeworkHandler. A form without a userId or a lessonId value
      makes the handler panic (500). A second submission for the same user
      and lesson is refused (400). A form without files gets 400 but is
      still processed and stored, with no files, and the handler then
      writes 200, which no longer changes the status. The insert's error is
      ignored. */
  method SubmitHomework(store: Store, ctx: Context, form: Option<HomeworkForm>, now: Instant)
    modifies store, ctx
    ensures form.None? ==> ctx.status == Written(old(ctx.status), 400) && store.db == old(store.db)
    ensures form.Some? && !SubmissionReadable(form) ==>
              store.db == old(store.db) &&
              var f := form.value;
              ctx.status == Written(old(ctx.status),
                if |f.userId| == 0 then 500
                else if Atoi(f.userId[0]).None? then 400
                else if |f.lessonId| == 0 then 500
                else 400)
    ensures SubmissionReadable(form) ==>
              var f := form.value;
              var u := Atoi(f.userId[0]).value;
              var l := Atoi(f.lessonId[0]).value;
              if SubmissionOf(old(store.db), u, l).Some? then
                ctx.status == Written(old(ctx.status), 400) && store.db == old(store.db)
              else
                var noFiles := if |f.files| == 0 then Written(old(ctx.status), 400) else old(ctx.status);
                var r := CreateHomework(old(store.db), NewHomeworkRow(u, l, UploadNames(f.files, true), now));
                ctx.status == Written(UploadsStatus(noFiles, f.files, true), 200) &&
                store.db == (if r.Some? then r.value else old(store.db))
    ensures DbValid(old(store.db)) ==> DbValid(store.db)
  {
    if form.None? {
      ctx.JSON(400);
      return;
    }
    var f := form.value;
    if |f.userId| == 0 {
      ctx.Recover();
      return;
    }
    var userIdInt := Atoi(f.userId[0]);
    if userIdInt.None? {
      ctx.JSON(400);
      return;
    }
    if |f.lessonId| == 0 {
      ctx.Recover();
      return;
    }
    var lessonIdInt := Atoi(f.lessonId[0]);
    if lessonIdInt.None? {
      ctx.JSON(400);
      return;
    }
    var checkHwModel := SubmissionOf(store.db, userIdInt.value, lessonIdInt.value);
    if checkHwModel.Some? {
      ctx.JSON(400);
      return;
    }
    if |f.files| == 0 {
      ctx.JSON(400);
    }
    var names := ProcessUploads(f.files, ctx, true);
    var row := NewHomeworkRow(userIdInt.value, lessonIdInt.value, names, now);
    var r := CreateHomework(store.db, row);
    if DbValid(store.db) && r.Some? {
      NewSubmissionUnique(store.db, userIdInt.value, lessonIdInt.value, row);
    }
    if r.Some? {
      store.db := r.value;
    }
    ctx.JSON(200);
  }

  /** The handler's duplicate check is the uniqueness rule the store keeps:
      an insert it lets through was given two non-negative ids and adds the
      only submission of the pair. */
  lemma NewSubmissionUnique(db: Db, userId: int, lessonId: int, row: Homework)
    requires DbValid(db)
    requires -(TwoTo63 as int) <= userId < TwoTo63 && -(TwoTo63 as int) <= lessonId < TwoTo63
    requires SubmissionOf(db, userId, lessonId).None?
    requires row.userId == ToUint64(userId) && row.lessonId == ToUint64(lessonId)
    requires CreateHomework(db, row).Some?
    ensures userId >= 0 && lessonId >= 0
    ensures !HasKey(db.homeworks, HomeworkPair, HomeworkPair(row))
    ensures DbValid(CreateHomework(db, row).value)
  {
    var i :| 0 <= i < |db.users| && UserKey(db.users[i]) == row.userId;
    assert db.users[i].id < TwoTo63;
    var j :| 0 <= j < |db.lessons| && LessonKey(db.lessons[j]) == row.lessonId;
    assert db.lessons[j].id < TwoTo63;
    forall k | 0 <= k < |db.homeworks| ensures HomeworkPair(db.homeworks[k]) != HomeworkPair(row) {
      assert db.homeworks[k] in db.homeworks;
    }
  }

  /** After a stored submission, the pair's submission is the new row:
      ungraded, with no points, listing the uploaded names. */
  lemma SubmittedOnce(db: Db, userId: nat, lessonId: nat, names: seq<string>, now: Instant)
    requires DbValid(db)
    requires userId < TwoTo63 && lessonId < TwoTo63
    requires SubmissionOf(db, userId, lessonId).None?
    requires CreateHomework(db, NewHomeworkRow(userId, lessonId, names, now)).Some?
    ensures var db' := CreateHomework(db, NewHomeworkRow(userId, lessonId, names, now)).value;
      var h := SubmissionOf(db', userId, lessonId);
      h.Some? && h.value == db'.homeworks[|db'.homeworks| - 1] &&
      h.value.files == names && h.value.points == 0 && !h.value.checked
  {
    var row := NewHomeworkRow(userId, lessonId, names, now);
    NewSubmissionUnique(db, userId, lessonId, row);
    var db' := CreateHomework(db, row).value;
    var h := db'.homeworks[|db'.homeworks| - 1];
    assert h in db'.homeworks;
    FirstUnique(db'.homeworks, HomeworkPair, h);
  }

  // ---------------------------------------------------------------------
  // Grading
  // ---------------------------------------------------------------------

  /** The bound body of GradeHomeworkHandler; points is a Go int. */
  datatype GradeRequest = GradeRequest(points: int, comment: string)

  /** The submission `WHERE id = ?` finds for the path parameter; None also
      when the id column cannot read the parameter. */
  function HomeworkByParam(db: Db, idParam: string): (r: Option<Homework>)
    ensures r.Some? ==> r.value in db.homeworks && Atoi(idParam) == Some(r.value.id as int)
    ensures (exists h :: h in db.homeworks && Atoi(idParam) == Some(h.id as int)) ==> r.Some?
  {
    match Atoi(idParam)
    case None => None
    case Some(n) =>
      if n < 0 then None
      else
        var r := First(db.homeworks, HomeworkKey, n as nat);
        assert (exists h :: h in db.homeworks && Atoi(idParam) == Some(h.id as int)) ==> r.Some? by {
          if h :| h in db.homeworks && Atoi(idParam) == Some(h.id as int) {
            HasKeyMember(db.homeworks, HomeworkKey, h);
          }
        }
        r
  }

  function Grade(points: nat, comment: string): Homework -> Homework
  {
    (h: Homework) => h.(points := points, comment := comment, checked := true)
  }

  /** The status GradeHomeworkHandler answers with: 400 for an empty id or
      a body that does not bind (points outside the int range included),
      500 when no submission is found, 400 when it is already graded. */
  function GradeStatus(db: Db, idParam: string, req: Option<GradeRequest>): int
  {
    if idParam == "" then 400
    else if req.None? || !(-(TwoTo63 as int) <= req.value.points < TwoTo63) then 400
    else if HomeworkByParam(db, idParam).None? then 500
    else if HomeworkByParam(db, idParam).value.checked then 400
    else 200
  }

  /** The store after `db.Save` of the graded submission. Points are stored
      as Go's uint conversion leaves them; the column is a signed 64-bit
      integer, so a negative grade (wrapped to 2^63 or more) makes the save
      fail, and its error is ignored. */
  function GradedDb(db: Db, h: Homework, req: GradeRequest): Db
  {
    var points := ToUint64(req.points);
    if points < TwoTo63 then db.(homeworks := UpdateWhere(db.homeworks, HomeworkIs(h.id), Grade(points, req.comment)))
    else db
  }

  /** GradeHomeworkHandler. */
  method GradeHomework(store: Store, ctx: Context, idParam: string, req: Option<GradeRequest>)
    modifies store, ctx
    ensures ctx.status == Written(old(ctx.status), GradeStatus(old(store.db), idParam, req))
    ensures GradeStatus(old(store.db), idParam, req) != 200 ==> store.db == old(store.db)
    ensures GradeStatus(old(store.db), idParam, req) == 200 ==>
              store.db == GradedDb(old(store.db), HomeworkByParam(old(store.db), idParam).value, req.value)
  {
    if idParam == "" {
      ctx.JSON(400);
      return;
    }
    if req.None? || !(-(TwoTo63 as int) <= req.value.points < TwoTo63) {
      ctx.JSON(400);
      return;
    }
    var homework := HomeworkByParam(store.db, idParam);
    if homework.None? {
      ctx.JSON(500);
      return;
    }
    if homework.value.checked {
      ctx.JSON(400);
      return;
    }
    store.db := GradedDb(store.db, homework.value, req.value);
    ctx.JSON(200);
  }

  /** Grading keeps the store valid. */
  lemma GradedDbValid(db: Db, h: Homework, req: GradeRequest)
    requires DbValid(db)
    ensures DbValid(GradedDb(db, h, req))
  {
    var points := ToUint64(req.points);
    if points < TwoTo63 {
      UpdateHomeworksValid(db, HomeworkIs(h.id), Grade(points, req.comment));
    }
  }

  /** A grade is given once: after a successful grading with non-negative
      points the submission is checked, with those points and that
      comment, and any further grading of it is refused with 400. */
  lemma GradedOnce(db: Db, idParam: string, req: GradeRequest, again: GradeRequest)
    requires DbValid(db)
    requires GradeStatus(db, idParam, Some(req)) == 200
    requires 0 <= req.points
    requires -(TwoTo63 as int) <= again.points < TwoTo63
    ensures var h := HomeworkByParam(db, idParam).value;
      var db' := GradedDb(db, h, req);
      HomeworkByParam(db', idParam).Some? &&
      HomeworkByParam(db', idParam).value == h.(points := req.points, comment := req.comment, checked := true) &&
      GradeStatus(db', idParam, Some(again)) == 400
  {
    var h := HomeworkByParam(db, idParam).value;
    GradedRowStored(db, h, req);
    var db' := GradedDb(db, h, req);
    IdsAscendingKeysDistinct(db'.homeworks, HomeworkKey);
    FirstUnique(db'.homeworks, HomeworkKey, h.(points := req.points, comment := req.comment, checked := true));
  }

  /** The graded row is stored in place of the submission, and the store
      stays valid. */
  lemma GradedRowStored(db: Db, h: Homework, req: GradeRequest)
    requires DbValid(db)
    requires h in db.homeworks
    requires 0 <= req.points < TwoTo63
    ensures h.(points := req.points, comment := req.comment, checked := true) in GradedDb(db, h, req).homeworks
    ensures DbValid(GradedDb(db, h, req))
  {
    var db' := GradedDb(db, h, req);
    IdsAscendingKeysDistinct(db.homeworks, HomeworkKey);
    var k :| 0 <= k < |db.homeworks| && db.homeworks[k] == h;
    assert db'.homeworks[k] == h.(points := req.points, comment := req.comment, checked := true);
    GradedDbValid(db, h, req);
  }

  /** A negative grade is answered with 200 yet leaves the submission
      ungraded, so it can be graded again. */
  lemma NegativeGradeNotStored(db: Db, h: Homework, req: GradeRequest)
    requires -(TwoTo63 as int) <= req.points < 0
    ensures GradedDb(db, h, req) == db
  {
    assert ToUint64(req.points) == req.points + TwoTo64;
  }

  // ---------------------------------------------------------------------
  // Viewing a grade
  // ---------------------------------------------------------------------

  /** ViewGradesHandler: 400 when either query value is not a decimal
      integer (an absent lessonId included, so the handler's test for an
      empty lessonId never fails), 500 when the user has no submission for
      the lesson, otherwise 200 with that submission. */
  function GradesReply(db: Db, lessonParam: string, userParam: string): (r: (int, Option<Homework>))
    ensures lessonParam == "" ==> r.0 == 400
    ensures r.0 == 200 <==> r.1.Some?
    ensures r.1.Some? ==>
              (r.1.value in db.homeworks &&
               Atoi(lessonParam) == Some(r.1.value.lessonId as int) && Atoi(userParam) == Some(r.1.value.userId as int))
  {
    match Atoi(lessonParam)
    case None => (400, None)
    case Some(l) =>
      match Atoi(userParam)
      case None => (400, None)
      case Some(u) =>
        match SubmissionOf(db, u, l)
        case None => (500, None)
        case Some(h) => (200, Some(h))
  }

  method ViewGrades(store: Store, ctx: Context, lessonParam: string, userParam: string) returns (grades: Option<Homework>)
    modifies ctx
    ensures ctx.status == Written(old(ctx.status), GradesReply(store.db, lessonParam, userParam).0)
    ensures grades == GradesReply(store.db, lessonParam, userParam).1
  {
    var lessonIdInt := Atoi(lessonParam);
    if lessonIdInt.None? {
      ctx.JSON(400);
      return None;
    }
    var userIdInt := Atoi(userParam);
    if userIdInt.None? {
      ctx.JSON(400);
      return None;
    }
    if lessonParam != "" {
      grades := SubmissionOf(store.db, userIdInt.value, lessonIdInt.value);
      if grades.None? {
        ctx.JSON(500);
        return;
      }
    }
    ctx.JSON(200);
  }

  /** The grade view shows the stored submission of a user and a lesson
      when one submission per pair is kept and both ids render as read. */
  lemma GradesReplyShowsRow(db: Db, g: Homework)
    requires KeysDistinct(db.homeworks, HomeworkPair)
    requires g in db.homeworks
    requires g.userId < TwoTo63 && g.lessonId < TwoTo63
    ensures GradesReply(db, NatToString(g.lessonId), NatToString(g.userId)) == (200, Some(g))
  {
    AtoiReadsRenderedId(g.userId);
    AtoiReadsRenderedId(g.lessonId);
    FirstUnique(db.homeworks, HomeworkPair, g);
  }

  /** A grade given is the grade viewed: after grading a user's submission
      for a lesson, the grade view for that lesson and user shows it
      checked, with the points and the comment given. */
  lemma GradeIsViewed(db: Db, h: Homework, req: GradeRequest)
    requires DbValid(db)
    requires h in db.homeworks
    requires 0 <= req.points < TwoTo63
    ensures var r := GradesReply(GradedDb(db, h, req), NatToString(h.lessonId), NatToString(h.userId));
      r.0 == 200 && r.1 == Some(h.(points := req.points, comment := req.comment, checked := true))
  {
    GradedRowStored(db, h, req);
    HomeworkIdsBounded(db, h);
    var db' := GradedDb(db, h, req);
    assert HandlerRulesValid(db');
    GradesReplyShowsRow(db', h.(points := req.points, comment := req.comment, checked := true));
  }
}
