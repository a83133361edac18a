/** The course page: the course and its lessons as the session user may
    see them, the teacher's lesson creation, and the lesson modal with its
    role-dependent tabs, the task and homework uploads, the screen
    recording and the grade view. */
module ClientCourse {
  import opened Common
  import opened Models
  import opened Http
  import opened Endpoints
  import CourseHandlers
  import LessonHandlers
  import opened Middleware

  /** `currentUser?.role === role` */
  predicate HasRole(currentUser: Option<UserResponse>, role: string)
  {
    currentUser.Some? && currentUser.value.role == role
  }

  // ---------------------------------------------------------------------
  // The course page
  // ---------------------------------------------------------------------

  /** The label of the card at a position of the lesson list. */
  function CardLabel(index: nat): (s: string)
    ensures |s| > 0 && AllDigits(s) && DecimalValue(s) == index + 1
  {
    NatToString(index + 1)
  }

  /** The lesson a teacher creates from the page, with the page's course id. */
  function NewLessonRequest(title: string, description: string, courseId: nat): LessonHandlers.LessonRequest
  {
    LessonHandlers.LessonRequest(title, description, courseId)
  }

  class CoursePage {
    var course: Option<Course>
    var lessons: seq<Lesson>
    var showAddLesson: bool
    var selectedLesson: Option<Lesson>

    /** The page mounts with no course, no lessons and no modal. */
    constructor ()
      ensures course.None? && lessons == [] && !showAddLesson && selectedLesson.None?
    {
      course := None;
      lessons := [];
      showAddLesson := false;
      selectedLesson := None;
    }

    /** Nothing but a loading notice is shown until a course is set. */
    predicate ShowsLoading()
      reads this
    {
      course.None?
    }

    /** "No lessons yet." stands in for an empty lesson list. */
    predicate ShowsNoLessons()
      reads this
    {
      course.Some? && |lessons| == 0
    }

    /** fetchCourse: the reply's course, when the reply is ok. */
    method CourseFetched(ok: bool, data: Course)
      modifies this
      ensures course == (if ok then Some(data) else old(course))
      ensures lessons == old(lessons) && showAddLesson == old(showAddLesson) && selectedLesson == old(selectedLesson)
    {
      if ok {
        course := Some(data);
      }
    }

    /** fetchLessons: the reply's lessons, when the reply is ok. */
    method LessonsFetched(ok: bool, data: seq<Lesson>)
      modifies this
      ensures lessons == (if ok then data else old(lessons))
      ensures course == old(course) && showAddLesson == old(showAddLesson) && selectedLesson == old(selectedLesson)
    {
      if ok {
        lessons := data;
      }
    }

    /** "+ Add Lesson", a button only a teacher is shown. */
    method OpenAddLesson(currentUser: Option<UserResponse>)
      modifies this
      requires HasRole(currentUser, "teacher")
      ensures showAddLesson
      ensures course == old(course) && lessons == old(lessons) && selectedLesson == old(selectedLesson)
    {
      showAddLesson := true;
    }

    /** The lesson modal's onSuccess, after its lessons were fetched again:
        the add modal closes. A reply that is not ok leaves it open. */
    method LessonCreated(ok: bool)
      modifies this
      ensures showAddLesson == (old(showAddLesson) && !ok)
      ensures course == old(course) && lessons == old(lessons) && selectedLesson == old(selectedLesson)
    {
      if ok {
        showAddLesson := false;
      }
    }

    /** A lesson card's onClick and the lesson modal's onClose. */
    method SelectLesson(l: Option<Lesson>)
      modifies this
      ensures selectedLesson == l
      ensures course == old(course) && lessons == old(lessons) && showAddLesson == old(showAddLesson)
    {
      selectedLesson := l;
    }
  }

  /** The course the page shows for an address id: the reply of the course
      handler when it is ok. */
  function CourseShown(db: Db, idParam: string): (r: Option<Course>)
    requires idParam != ""
    ensures r.Some? <==> Atoi(idParam).Some?
  {
    match Atoi(idParam)
    case None => None
    case Some(n) => Some(CourseHandlers.CourseById(db, n))
  }

  /** The lessons the lesson handler answers with for an address id and a
      session, when its reply is ok. */
  function LessonsReply(db: Db, sess: SessionValue, idParam: string): (r: Option<seq<Lesson>>)
  {
    if sess.UserSession? && Atoi(idParam).Some? &&
       LessonHandlers.CheckCourseEnrollment(db, sess.user.id, Atoi(idParam).value, sess.user.role).0
    then Some(LessonHandlers.LessonsOfId(db, Atoi(idParam).value))
    else None
  }

  /** The lessons the page lists after opening: the reply's, or none. */
  function LessonsShown(db: Db, sess: SessionValue, idParam: string): (r: seq<Lesson>)
  {
    var reply := LessonsReply(db, sess, idParam);
    if reply.Some? then reply.value else []
  }

  /** Opening a course address: the page mounts and fetches the course and
      its lessons from the handlers. */
  method OpenCourse(store: Store, sess: Session, idParam: string) returns (page: CoursePage)
    requires idParam != ""
    ensures fresh(page)
    ensures page.course == CourseShown(store.db, idParam)
    ensures page.lessons == LessonsShown(store.db, sess.value, idParam)
    ensures !page.showAddLesson && page.selectedLesson.None?
  {
    page := new CoursePage();
    var ctx := new Context();
    var reply := CourseHandlers.GetCourses(store, ctx, sess, idParam);
    if ctx.status == Some(200) && reply.OneCourse? {
      page.CourseFetched(true, reply.course);
    }
    var ctx2 := new Context();
    var lessons := LessonHandlers.GetLessons(store, ctx2, sess, idParam);
    if ctx2.status == Some(200) && lessons.Some? {
      page.LessonsFetched(true, lessons.value);
    }
  }

  /** The session holds the projection of a user of a valid store. */
  ghost predicate StoredSession(db: Db, value: SessionValue)
  {
    DbValid(db) && exists u :: u in db.users && value == UserSession(ToResponse(u))
  }

  /** CheckStaff refuses every session of a stored user. */
  lemma StoredSessionRefused(db: Db, value: SessionValue)
    requires StoredSession(db, value)
    ensures CheckStaff(value) == Abort(403)
  {
    var u :| u in db.users && value == UserSession(ToResponse(u));
    NoStoredUserPassesCheckStaff(db, u);
  }

  /** "Create Lesson" in the add modal: the lesson is posted to POST
      /lessons, where CheckStaff runs before the handler, and on an ok reply
      the lessons are fetched again and the modal closes. No stored user
      passes CheckStaff, so for any logged-in user the request is refused
      with 403 and nothing changes. */
  method CreateLessonFromPage(store: Store, sess: Session, page: CoursePage, courseId: nat,
                              title: string, description: string, now: Instant)
    modifies store, page
    ensures var r := if CheckStaff(sess.value).Continue?
                     then CreateLesson(old(store.db), LessonHandlers.NewLessonRow(NewLessonRequest(title, description, courseId), now))
                     else None;
            store.db == (if r.Some? then r.value else old(store.db)) &&
            var reply := LessonsReply(store.db, sess.value, NatToString(courseId));
            page.lessons == (if r.Some? && reply.Some? then reply.value else old(page.lessons)) &&
            page.showAddLesson == (old(page.showAddLesson) && r.None?)
    ensures StoredSession(old(store.db), sess.value) ==>
              store.db == old(store.db) && page.lessons == old(page.lessons) && page.showAddLesson == old(page.showAddLesson)
    ensures page.course == old(page.course) && page.selectedLesson == old(page.selectedLesson)
  {
    if StoredSession(store.db, sess.value) {
      StoredSessionRefused(store.db, sess.value);
    }
    var ctx := new Context();
    ApplyGate(CheckStaff(sess.value), ctx, sess);
    if !ctx.aborted {
      var lesson := LessonHandlers.AddLesson(store, ctx, Some(NewLessonRequest(title, description, courseId)), now);
    }
    if ctx.status == Some(200) {
      var ctx2 := new Context();
      var lessons := LessonHandlers.GetLessons(store, ctx2, sess, NatToString(courseId));
      page.LessonsFetched(ctx2.status == Some(200) && lessons.Some?, if lessons.Some? then lessons.value else []);
    }
    page.LessonCreated(ctx.status == Some(200));
  }

  // ---------------------------------------------------------------------
  // Properties across the course page and the handlers
  // ---------------------------------------------------------------------

  /** An id no course has still shows a course: the zero course, with no
      name, no description and no teacher, instead of the loading notice. */
  lemma UnknownCourseShownEmpty(db: Db, n: nat)
    requires n < TwoTo63
    requires forall c :: c in db.courses ==> c.id != n
    ensures CourseShown(db, NatToString(n)) == Some(CourseHandlers.ZeroCourse)
  {
    AtoiReadsRenderedId(n);
  }

  /** A teacher sees the lessons of a course exactly when they teach it,
      and then every lesson of that course. */
  lemma TeacherSeesOwnLessons(db: Db, u: UserResponse, c: Course)
    requires DbValid(db) && c in db.courses && u.role == "teacher"
    ensures c.teacherId == Some(u.id) ==>
              forall l :: l in LessonsShown(db, UserSession(u), NatToString(c.id)) <==> l in db.lessons && l.courseId == c.id
    ensures c.teacherId != Some(u.id) ==> LessonsShown(db, UserSession(u), NatToString(c.id)) == []
  {
    CourseIdBounded(db, c);
    AtoiReadsRenderedId(c.id);
    if c.teacherId != Some(u.id) {
      IdsAscendingKeysDistinct(db.courses, CourseKey);
      forall d | d in db.courses && d.teacherId == Some(u.id) ensures d.id != c.id {
        var i :| 0 <= i < |db.courses| && db.courses[i] == d;
        var k :| 0 <= k < |db.courses| && db.courses[k] == c;
        assert CourseKey(db.courses[i]) != CourseKey(db.courses[k]) || i == k;
      }
    }
  }

  /** Anyone but a teacher sees a course's lessons only through an
      enrolment: an administrator who is enrolled nowhere is shown "No
      lessons yet." on every course, whatever lessons it has. */
  lemma UnenrolledSeesNoLessons(db: Db, u: UserResponse, idParam: string)
    requires u.role != "teacher"
    requires forall e :: e in db.enrollments ==> e.userId != u.id
    ensures LessonsShown(db, UserSession(u), idParam) == []
  {
  }

  /** Once AddLesson has stored a lesson for a course its teacher teaches,
      that teacher's next fetch lists it. This is about the handlers alone:
      as routed, CheckStaff refuses the creation for every stored user (see
      CreateLessonFromPage). */
  lemma CreatedLessonListed(db: Db, u: UserResponse, c: Course, title: string, description: string, now: Instant)
    requires DbValid(db) && c in db.courses && u.role == "teacher" && c.teacherId == Some(u.id)
    requires CreateLesson(db, LessonHandlers.NewLessonRow(NewLessonRequest(title, description, c.id), now)).Some?
    ensures var db' := CreateLesson(db, LessonHandlers.NewLessonRow(NewLessonRequest(title, description, c.id), now)).value;
            var l := db'.lessons[|db'.lessons| - 1];
            l in LessonsShown(db', UserSession(u), NatToString(c.id)) && l.name == title && l.description == description
  {
    var req := NewLessonRequest(title, description, c.id);
    var db' := CreateLesson(db, LessonHandlers.NewLessonRow(req, now)).value;
    LessonHandlers.AddedLessonListed(db, req, now);
    assert db'.courses == db.courses;
    TeacherSeesOwnLessons(db', u, c);
  }

  lemma CourseIdBounded(db: Db, c: Course)
    requires DbValid(db) && c in db.courses
    ensures 0 < c.id < TwoTo63
  {
    var i :| 0 <= i < |db.courses| && db.courses[i] == c;
  }

  // ---------------------------------------------------------------------
  // The lesson modal
  // ---------------------------------------------------------------------

  datatype ModalTab = AddFiles | ShowFiles | RateStudents | RecordScreen | SendHomework | ViewGrades

  /** The tab buttons the modal offers, in the order they are rendered:
      "Show Files" for everyone, the teacher's three tabs around it, the
      student's two after it. */
  function OfferedTabs(currentUser: Option<UserResponse>): (r: seq<ModalTab>)
    ensures ShowFiles in r
    ensures (AddFiles in r <==> HasRole(currentUser, "teacher")) &&
            (RateStudents in r <==> HasRole(currentUser, "teacher")) &&
            (RecordScreen in r <==> HasRole(currentUser, "teacher"))
    ensures (SendHomework in r <==> HasRole(currentUser, "student")) &&
            (ViewGrades in r <==> HasRole(currentUser, "student"))
    ensures forall i, j :: 0 <= i < j < |r| ==> r[i] != r[j]
  {
    var teacher := HasRole(currentUser, "teacher");
    var student := HasRole(currentUser, "student");
    (if teacher then [AddFiles] else []) + [ShowFiles] +
    (if teacher then [RateStudents, RecordScreen] else []) +
    (if student then [SendHomework, ViewGrades] else [])
  }

  /** A file list the listing delivers: Go encodes an empty list as null. */
  function JsonList(xs: seq<string>): (r: Option<seq<string>>)
    ensures r.None? <==> xs == []
    ensures r.Some? ==> r.value == xs
  {
    if xs == [] then None else Some(xs)
  }

  /** "No tasks" stands in for two lists that are null or empty. */
  predicate NoTasks(homework: Option<seq<string>>, classwork: Option<seq<string>>)
  {
    (homework.None? || homework.value == []) && (classwork.None? || classwork.value == [])
  }

  /** The body the grade request resolves to: the submission on a 200
      reply, otherwise an error object. */
  datatype GradesBody = Submission(homework: Homework) | ErrorObject

  function GradesBodyOf(reply: (int, Option<Homework>)): GradesBody
  {
    if reply.1.Some? then Submission(reply.1.value) else ErrorObject
  }

  /** What the grade tab renders: no grade until a body arrived (reading
      `checked` of null fails), the points and the comment of a checked
      submission, and the waiting notice for anything else. */
  datatype GradesPanel = RenderFails | Graded(points: nat, comment: string) | Waiting

  function GradesPanelOf(userHw: Option<GradesBody>): (p: GradesPanel)
    ensures p.Graded? <==> userHw.Some? && userHw.value.Submission? && userHw.value.homework.checked
    ensures p.Graded? ==> p.points == userHw.value.homework.points && p.comment != ""
    ensures p == RenderFails <==> userHw.None?
  {
    match userHw
    case None => RenderFails
    case Some(Submission(h)) =>
      if h.checked then Graded(h.points, if h.comment != "" then h.comment else "No comment provided") else Waiting
    case Some(ErrorObject) => Waiting
  }

  /** `String(currentUser?.id)` */
  function UserIdText(currentUser: Option<UserResponse>): string
  {
    if currentUser.Some? then NatToString(currentUser.value.id) else "undefined"
  }

  /** uploadTasks' form: the lesson id and the chosen files. */
  function TasksFormOf(lessonId: nat, homework: seq<Upload>, classwork: seq<Upload>): LessonHandlers.TasksForm
  {
    LessonHandlers.TasksForm([NatToString(lessonId)], homework, classwork)
  }

  /** uploadHomework's form: the lesson id, the user id and the chosen files. */
  function HomeworkFormOf(lessonId: nat, currentUser: Option<UserResponse>, files: seq<Upload>): LessonHandlers.HomeworkForm
  {
    LessonHandlers.HomeworkForm([UserIdText(currentUser)], [NatToString(lessonId)], files)
  }

  class LessonModal {
    const lesson: Lesson
    const currentUser: Option<UserResponse>
    var activeTab: ModalTab
    var homeworkFiles: seq<Upload>
    var classworkFiles: seq<Upload>
    var userHwFiles: seq<Upload>
    var recording: bool
    var homeworkFileNames: Option<seq<string>>
    var classworkFileNames: Option<seq<string>>
    var userHw: Option<GradesBody>

    /** The active tab is one whose button is shown. */
    predicate Valid()
      reads this
    {
      activeTab in OfferedTabs(currentUser)
    }

    /** The modal opens on "Show Files", with nothing chosen, not
        recording, no file names and no grades. */
    constructor (lesson: Lesson, currentUser: Option<UserResponse>)
      ensures this.lesson == lesson && this.currentUser == currentUser
      ensures activeTab == ShowFiles && Valid()
      ensures homeworkFiles == [] && classworkFiles == [] && userHwFiles == [] && !recording
      ensures homeworkFileNames == Some([]) && classworkFileNames == Some([]) && userHw.None?
    {
      this.lesson := lesson;
      this.currentUser := currentUser;
      activeTab := ShowFiles;
      homeworkFiles := [];
      classworkFiles := [];
      userHwFiles := [];
      recording := false;
      homeworkFileNames := Some([]);
      classworkFileNames := Some([]);
      userHw := None;
    }

    predicate ShowsNoTasks()
      reads this
    {
      NoTasks(homeworkFileNames, classworkFileNames)
    }

    /** A tab button: only the buttons shown can be pressed. */
    method SelectTab(t: ModalTab)
      modifies this
      requires Valid() && t in OfferedTabs(currentUser)
      ensures activeTab == t && Valid()
      ensures homeworkFiles == old(homeworkFiles) && classworkFiles == old(classworkFiles) && userHwFiles == old(userHwFiles)
      ensures recording == old(recording) && userHw == old(userHw)
      ensures homeworkFileNames == old(homeworkFileNames) && classworkFileNames == old(classworkFileNames)
    {
      activeTab := t;
    }

    /** The first mount effect: the file names of a listing reply. */
    method TasksFetched(reply: LessonTasks)
      modifies this
      ensures homeworkFileNames == JsonList(reply.homework) && classworkFileNames == JsonList(reply.classwork)
      ensures activeTab == old(activeTab) && recording == old(recording) && userHw == old(userHw)
      ensures homeworkFiles == old(homeworkFiles) && classworkFiles == old(classworkFiles) && userHwFiles == old(userHwFiles)
    {
      homeworkFileNames := JsonList(reply.homework);
      classworkFileNames := JsonList(reply.classwork);
    }

    /** The second mount effect: every reply body is an object, so it is kept. */
    method GradesFetched(body: GradesBody)
      modifies this
      ensures userHw == Some(body)
      ensures activeTab == old(activeTab) && recording == old(recording)
      ensures homeworkFileNames == old(homeworkFileNames) && classworkFileNames == old(classworkFileNames)
      ensures homeworkFiles == old(homeworkFiles) && classworkFiles == old(classworkFiles) && userHwFiles == old(userHwFiles)
    {
      userHw := Some(body);
    }

    /** The three file inputs' change handlers. */
    method ChooseFiles(homework: Option<seq<Upload>>, classwork: Option<seq<Upload>>, userHw': Option<seq<Upload>>)
      modifies this
      ensures homeworkFiles == (if homework.Some? then homework.value else old(homeworkFiles))
      ensures classworkFiles == (if classwork.Some? then classwork.value else old(classworkFiles))
      ensures userHwFiles == (if userHw'.Some? then userHw'.value else old(userHwFiles))
      ensures activeTab == old(activeTab) && recording == old(recording) && userHw == old(userHw)
      ensures homeworkFileNames == old(homeworkFileNames) && classworkFileNames == old(classworkFileNames)
    {
      if homework.Some? {
        homeworkFiles := homework.value;
      }
      if classwork.Some? {
        classworkFiles := classwork.value;
      }
      if userHw'.Some? {
        userHwFiles := userHw'.value;
      }
    }

    /** uploadTasks, after the reply: a reply with a success member clears
        both choices; any other keeps them. Returns the alert's text. */
    method TasksUploaded(success: bool) returns (alert: string)
      modifies this
      ensures success ==> homeworkFiles == [] && classworkFiles == [] && alert == "Tasks uploaded successfully!"
      ensures !success ==> homeworkFiles == old(homeworkFiles) && classworkFiles == old(classworkFiles) &&
                           alert == "Failed to upload tasks. Please try again."
      ensures userHwFiles == old(userHwFiles) && activeTab == old(activeTab) && recording == old(recording) && userHw == old(userHw)
      ensures homeworkFileNames == old(homeworkFileNames) && classworkFileNames == old(classworkFileNames)
    {
      if success {
        alert := "Tasks uploaded successfully!";
        homeworkFiles := [];
        classworkFiles := [];
      } else {
        alert := "Failed to upload tasks. Please try again.";
      }
    }

    /** uploadHomework, after the reply: a success clears the teacher's two
        choices, not the homework files just sent. Returns the alert's text,
        the reply's success or error member. */
    method HomeworkUploaded(success: Option<string>, error: string) returns (alert: string)
      modifies this
      ensures success.Some? ==> homeworkFiles == [] && classworkFiles == [] && alert == success.value
      ensures success.None? ==> homeworkFiles == old(homeworkFiles) && classworkFiles == old(classworkFiles) && alert == error
      ensures userHwFiles == old(userHwFiles) && activeTab == old(activeTab) && recording == old(recording) && userHw == old(userHw)
      ensures homeworkFileNames == old(homeworkFileNames) && classworkFileNames == old(classworkFileNames)
    {
      if success.Some? {
        alert := success.value;
        homeworkFiles := [];
        classworkFiles := [];
      } else {
        alert := error;
      }
    }

    /** The "Start"/"Stop" button: the flag flips, and the new value is the
        one handed to the recorder (start when true, stop when false). */
    method ToggleRecording() returns (start: bool)
      modifies this
      ensures recording == !old(recording) && start == recording
      ensures activeTab == old(activeTab) && userHw == old(userHw)
      ensures homeworkFiles == old(homeworkFiles) && classworkFiles == old(classworkFiles) && userHwFiles == old(userHwFiles)
      ensures homeworkFileNames == old(homeworkFileNames) && classworkFileNames == old(classworkFileNames)
    {
      recording := !recording;
      start := recording;
    }

    /** The recorder's stop and error listeners, and a failed capture. */
    method RecorderStopped()
      modifies this
      ensures !recording
      ensures activeTab == old(activeTab) && userHw == old(userHw)
      ensures homeworkFiles == old(homeworkFiles) && classworkFiles == old(classworkFiles) && userHwFiles == old(userHwFiles)
      ensures homeworkFileNames == old(homeworkFileNames) && classworkFileNames == old(classworkFileNames)
    {
      recording := false;
    }
  }

  // ---------------------------------------------------------------------
  // The recording's name
  // ---------------------------------------------------------------------

  /** The index of the first space in s, or -1. */
  function FirstSpace(s: string): (r: int)
    ensures -1 <= r < |s|
    ensures r >= 0 ==> s[r] == ' ' && forall k :: 0 <= k < r ==> s[k] != ' '
    ensures r == -1 ==> forall k :: 0 <= k < |s| ==> s[k] != ' '
  {
    if |s| == 0 then -1
    else if s[0] == ' ' then 0
    else
      var rest := FirstSpace(s[1..]);
      assert forall k :: 1 <= k < |s| ==> s[k] == s[1..][k - 1];
      if rest == -1 then -1 else rest + 1
  }

  /** `s.replace(" ", "_")`: a string pattern replaces its first match only. */
  function ReplaceFirstSpace(s: string): (r: string)
    ensures |r| == |s|
    ensures forall k :: 0 <= k < |s| ==> r[k] == s[k] || (s[k] == ' ' && r[k] == '_')
    ensures FirstSpace(s) >= 0 ==>
              r[FirstSpace(s)] == '_' && forall k :: 0 <= k < |s| && k != FirstSpace(s) ==> r[k] == s[k]
    ensures FirstSpace(s) == -1 ==> r == s
  {
    var i := FirstSpace(s);
    if i < 0 then s else s[..i] + "_" + s[i + 1..]
  }

  /** The name the page sends with a recording, from the day's
      `Date.toDateString()` text. */
  function RecordingName(dateText: string): string
  {
    "screenrecord_" + ReplaceFirstSpace(ToLower(dateText)) + ".webm"
  }

  /** The recording's form: the lesson id, the name and the recording. */
  function RecordFormOf(lessonId: nat, dateText: string, blob: Upload): LessonHandlers.RecordForm
  {
    LessonHandlers.RecordForm([NatToString(lessonId)], [RecordingName(dateText)], Some(blob))
  }

  /** `Date.toDateString()`: weekday, month, day and year, separated by
      single spaces. */
  function DateText(weekday: string, month: string, day: string, year: string): string
  {
    weekday + " " + month + " " + day + " " + year
  }

  /** Sanitising a name is replacing its spaces: nothing is left to trim. */
  lemma SanitizeIsReplace(s: string)
    ensures Sanitize(s) == ReplaceSpaces(s)
  {
    var r := ReplaceSpaces(s);
    assert forall k :: 0 <= k < |r| ==> r[k] != ' ';
  }

  /** Between two parts without spaces, a text whose first space was
      replaced sanitises to the text with all its spaces replaced. */
  lemma SanitizeFramed(p: string, m: string, q: string)
    requires forall k :: 0 <= k < |p| ==> p[k] != ' '
    requires forall k :: 0 <= k < |q| ==> q[k] != ' '
    ensures Sanitize(p + ReplaceFirstSpace(m) + q) == p + ReplaceSpaces(m) + q
  {
    var x := p + ReplaceFirstSpace(m) + q;
    var y := p + ReplaceSpaces(m) + q;
    SanitizeIsReplace(x);
    var z := ReplaceSpaces(x);
    assert |z| == |y|;
    forall k | 0 <= k < |z| ensures z[k] == y[k] {
      if k < |p| {
        assert x[k] == p[k] && y[k] == p[k];
      } else if k < |p| + |m| {
        assert x[k] == ReplaceFirstSpace(m)[k - |p|] && y[k] == ReplaceSpaces(m)[k - |p|];
      } else {
        assert x[k] == q[k - |p| - |m|] && y[k] == q[k - |p| - |m|];
      }
    }
  }

  /** The handler stores the recording under the sent name with every
      space turned into an underscore, the day's text lower-cased. */
  lemma StoredRecordingName(dateText: string)
    ensures Sanitize(RecordingName(dateText)) == "screenrecord_" + ReplaceSpaces(ToLower(dateText)) + ".webm"
  {
    var p := "screenrecord_";
    var q := ".webm";
    assert forall k :: 0 <= k < |p| ==> p[k] != ' ';
    assert forall k :: 0 <= k < |q| ==> q[k] != ' ';
    SanitizeFramed(p, ToLower(dateText), q);
  }

  /** The day's text has three spaces, and the page replaces only the
      first: the name it sends still holds a space, so the name stored,
      which has none, is not the name sent. */
  lemma SentNameIsNotStoredName(weekday: string, month: string, day: string, year: string)
    requires forall k :: 0 <= k < |weekday| ==> weekday[k] != ' '
    ensures var sent := RecordingName(DateText(weekday, month, day, year));
            Sanitize(sent) != sent && ' ' in sent
  {
    var d := DateText(weekday, month, day, year);
    var low := ToLower(d);
    ToLowerSpec(d);
    var i := |weekday|;
    assert d[i] == ' ';
    assert d[i + |month| + 1] == ' ';
    assert LowerChar(' ') == ' ';
    assert low[i] == ' ' && low[i + |month| + 1] == ' ';
    forall k | 0 <= k < i ensures low[k] != ' ' {
      assert d[k] == weekday[k];
    }
    assert FirstSpace(low) == i;
    var once := ReplaceFirstSpace(low);
    assert once[i + |month| + 1] == ' ';
    var sent := RecordingName(d);
    assert sent[13 + i + |month| + 1] == ' ';
    SanitizeSpec(sent);
  }

  // ---------------------------------------------------------------------
  // Properties across the lesson modal and the lesson handlers
  // ---------------------------------------------------------------------

  /** The tasks form names the lesson in a way the handler reads back. */
  lemma TasksFormNamesLesson(l: Lesson, homework: seq<Upload>, classwork: seq<Upload>)
    requires l.id < TwoTo63
    ensures LessonHandlers.TasksFormReadable(Some(TasksFormOf(l.id, homework, classwork)))
    ensures Atoi(TasksFormOf(l.id, homework, classwork).lessonId[0]) == Some(l.id)
  {
    AtoiReadsRenderedId(l.id);
  }

  /** Without a current user the homework form carries "undefined" as the
      user id, which the handler refuses before looking at anything else. */
  lemma LoggedOutHomeworkRefused(lessonId: nat, files: seq<Upload>)
    ensures var f := HomeworkFormOf(lessonId, None, files);
            !LessonHandlers.SubmissionReadable(Some(f)) && |f.userId| > 0 && Atoi(f.userId[0]).None?
  {
    var s := UserIdText(None);
    assert s[0] == 'u' && !IsDigit(s[0]);
    assert !AllDigits(s);
  }

  /** The "Show Files" tab shows "No tasks" exactly when no task record of
      the lesson lists a file. */
  lemma NoTasksIffNoFiles(db: Db, lessonId: nat)
    ensures var m := LessonHandlers.MergedTasks(db, lessonId);
            NoTasks(JsonList(m.homework), JsonList(m.classwork)) <==>
            forall t :: t in db.tasks && t.lessonId == lessonId ==> t.homework == [] && t.classwork == []
  {
    var m := LessonHandlers.MergedTasks(db, lessonId);
    if m.homework != [] {
      LessonHandlers.MergedTasksMembers(db, lessonId, m.homework[0]);
    }
    if m.classwork != [] {
      LessonHandlers.MergedTasksMembers(db, lessonId, m.classwork[0]);
    }
    forall t | t in db.tasks && t.lessonId == lessonId
      ensures m.homework == [] ==> t.homework == []
      ensures m.classwork == [] ==> t.classwork == []
    {
      if t.homework != [] {
        LessonHandlers.MergedTasksMembers(db, lessonId, t.homework[0]);
      }
      if t.classwork != [] {
        LessonHandlers.MergedTasksMembers(db, lessonId, t.classwork[0]);
      }
    }
  }

  /** A student who has submitted nothing for the lesson is told that the
      homework was submitted and waits to be checked: the handler's error
      reply is an object, read as an unchecked submission. */
  lemma NoSubmissionShownAsWaiting(db: Db, u: UserResponse, l: Lesson)
    requires u.id < TwoTo63 && l.id < TwoTo63
    requires forall h :: h in db.homeworks ==> h.userId != u.id || h.lessonId != l.id
    ensures GradesPanelOf(Some(GradesBodyOf(LessonHandlers.GradesReply(db, NatToString(l.id), UserIdText(Some(u)))))) == Waiting
  {
    AtoiReadsRenderedId(u.id);
    AtoiReadsRenderedId(l.id);
  }

  /** Once GradeHomework has saved a grade, the student's grade tab shows
      the points given and the comment, or the stand-in for an empty one.
      This is about the handlers alone: as routed, POST
      /lesson_tasks/submissions/:id runs CheckStaff first, which refuses
      every stored user. */
  lemma GradeShownToStudent(db: Db, h: Homework, u: UserResponse, req: LessonHandlers.GradeRequest)
    requires DbValid(db) && h in db.homeworks && h.userId == u.id
    requires 0 <= req.points < TwoTo63
    ensures GradesPanelOf(Some(GradesBodyOf(LessonHandlers.GradesReply(LessonHandlers.GradedDb(db, h, req), NatToString(h.lessonId), UserIdText(Some(u))))))
            == Graded(req.points, if req.comment != "" then req.comment else "No comment provided")
  {
    LessonHandlers.GradeIsViewed(db, h, req);
  }

  /** The recorder's stop listener: the recording is posted to POST
      /lesson_tasks/screenrecord, where CheckStaff runs before the handler,
      and the alert tells whether the reply carried a success member, which
      only the handler's 200 reply does. For any logged-in user CheckStaff
      refuses the request, so nothing is saved. */
  method SaveRecording(store: Store, sess: Session, modal: LessonModal, dateText: string, blob: Upload) returns (saved: bool)
    modifies store, modal
    requires modal.lesson.id < TwoTo63
    ensures !modal.recording
    ensures var t := LessonHandlers.FirstTasksOf(old(store.db), modal.lesson.id);
            var o := Outcome(blob.(filename := RecordingName(dateText)), true);
            var passes := CheckStaff(sess.value).Continue?;
            (saved <==> passes && t.Some? && o.error.None?) &&
            store.db == (if passes && t.Some? then LessonHandlers.WithRecording(old(store.db), t.value.id, o.name) else old(store.db))
    ensures StoredSession(old(store.db), sess.value) ==> !saved && store.db == old(store.db)
    ensures blob.saveOk ==> Outcome(blob.(filename := RecordingName(dateText)), true).name ==
                            "screenrecord_" + ReplaceSpaces(ToLower(dateText)) + ".webm"
  {
    if StoredSession(store.db, sess.value) {
      StoredSessionRefused(store.db, sess.value);
    }
    AtoiReadsRenderedId(modal.lesson.id);
    StoredRecordingName(dateText);
    var ctx := new Context();
    ApplyGate(CheckStaff(sess.value), ctx, sess);
    if !ctx.aborted {
      LessonHandlers.ScreenRecord(store, ctx, Some(RecordFormOf(modal.lesson.id, dateText, blob)));
    }
    saved := ctx.status == Some(200);
    modal.RecorderStopped();
  }
}
