/** The admin dashboard: the listings each tab loads, the courses tab with
    its teacher choice and participants modal, and the users tab with its
    pending payment changes and per-user course cache. */
module ClientAdmin {
  import opened Common
  import opened Models
  import opened Http
  import opened Endpoints
  import CourseHandlers
  import UserHandlers

  // ---------------------------------------------------------------------
  // Tabs
  // ---------------------------------------------------------------------

  datatype Tab = CoursesTab | UsersTab | StaffTab

  /** The listings the dashboard requests: all courses, or the user
      listing with students=true or students=false. */
  datatype Listing = AllCourses | Students | StaffMembers

  /** The listings the tab effect requests when a tab becomes active. */
  function LoadsOn(tab: Tab): (r: seq<Listing>)
    ensures AllCourses in r <==> tab == CoursesTab
    ensures Students in r <==> tab != StaffTab
    ensures StaffMembers in r <==> tab != UsersTab
  {
    match tab
    case CoursesTab => [AllCourses, StaffMembers, Students]
    case UsersTab => [Students]
    case StaffTab => [StaffMembers]
  }

  /** The students query parameter of a user listing. */
  function StudentsParam(l: Listing): string
  {
    if l == Students then "true" else "false"
  }

  /** The listing the staff tab and the teacher choice rely on selects the
      role "staff", which no stored user can have: it is always empty. */
  lemma StaffListingAlwaysEmpty(db: Db)
    requires DbValid(db)
    ensures UserHandlers.UsersWithRole(db, UserHandlers.ListedRole(StudentsParam(StaffMembers))) == []
  {
    UserHandlers.StaffListEmpty(db, StudentsParam(StaffMembers));
  }

  // ---------------------------------------------------------------------
  // Courses tab
  // ---------------------------------------------------------------------

  /** The teacher the course form proposes once the staff listing arrives:
      the first staff member, or the current choice when there is none. */
  function DefaultTeacher(staff: seq<UserResponse>, current: nat): (t: nat)
    ensures |staff| > 0 ==> t == staff[0].id
    ensures |staff| == 0 ==> t == current
  {
    if |staff| > 0 then staff[0].id else current
  }

  /** The multipart form handleAddCourse posts: name, description,
      duration, teacher_id and the chosen image. It has no price. */
  function DashboardCourseForm(name: string, description: string, duration: string, teacher: nat, image: Option<Upload>)
    : CourseHandlers.CourseForm
  {
    CourseHandlers.CourseForm(Some(name), Some(description), Some(duration), Some(NatToString(teacher)), image, None)
  }

  /** The course handler requires a price, which the dashboard never sends:
      every course the dashboard submits is refused with 400. */
  lemma DashboardCourseFormIncomplete(name: string, description: string, duration: string, teacher: nat, image: Option<Upload>)
    ensures !CourseHandlers.FormComplete(Some(DashboardCourseForm(name, description, duration, teacher, image)))
  {
  }

  /** Even with a price, the teacher the form proposes is refused: the staff
      listing is empty, so the teacher stays 0, and no user has id 0. */
  lemma ProposedTeacherRefused(db: Db, form: CourseHandlers.CourseForm, image: string)
    requires DbValid(db)
    requires form.name.Some? && form.description.Some? && form.duration.Some? && form.price.Some?
    ensures var sel := UserHandlers.UsersWithRole(db, UserHandlers.ListedRole(StudentsParam(StaffMembers)));
            var staff := seq(|sel|, k requires 0 <= k < |sel| => ToResponse(sel[k]));
            CreateCourse(db, CourseHandlers.NewCourseRow(form, image, DefaultTeacher(staff, 0))).None?
  {
    StaffListingAlwaysEmpty(db);
    forall i | 0 <= i < |db.users| ensures UserKey(db.users[i]) != 0 {
      assert 0 < db.users[i].id;
    }
  }

  class CoursesPanel {
    var courses: seq<Course>
    var teacher: nat

    /** The tab mounts with the courses listing and no teacher chosen. */
    constructor (courses: seq<Course>)
      ensures this.courses == courses && teacher == 0
    {
      this.courses := courses;
      teacher := 0;
    }

    /** The effect that runs when the staff listing changes. */
    method StaffLoaded(staff: seq<UserResponse>)
      modifies this
      ensures teacher == DefaultTeacher(staff, old(teacher)) && courses == old(courses)
    {
      if |staff| > 0 {
        teacher := staff[0].id;
      }
    }

    /** handleDeleteCourse: on an ok reply the course leaves the list. */
    method CourseDeleted(id: nat, ok: bool)
      modifies this
      ensures courses == (if ok then Filter(old(courses), CourseNot(id)) else old(courses))
      ensures teacher == old(teacher)
    {
      if ok {
        courses := Filter(courses, CourseNot(id));
      }
    }
  }

  /** Deleting a listed course from the dashboard: the list the dashboard
      keeps is the server's course table afterwards. A course someone is
      enrolled in, or with a lesson that has task records, stays (the
      server answers 500); any other goes as the tagged actions intend. */
  method DeleteCourseFromDashboard(store: Store, panel: CoursesPanel, id: nat)
    requires DbValid(store.db) && panel.courses == store.db.courses
    requires exists c :: c in panel.courses && c.id == id
    modifies store, panel
    ensures panel.courses == store.db.courses
    ensures CourseReferenced(old(store.db), id) ==> store.db == old(store.db)
    ensures !CourseReferenced(old(store.db), id) ==> store.db == DeleteCourse(old(store.db), id)
  {
    var c :| c in panel.courses && c.id == id;
    var i :| 0 <= i < |store.db.courses| && store.db.courses[i] == c;
    assert id < TwoTo63;
    AtoiReadsRenderedId(id);
    DeleteCourseAsWrittenAgrees(store.db, id);
    var ctx := new Context();
    CourseHandlers.DeleteCourseById(store, ctx, NatToString(id));
    panel.CourseDeleted(id, ctx.status == Some(200));
  }

  // ---------------------------------------------------------------------
  // Participants modal
  // ---------------------------------------------------------------------

  predicate Participates(participants: seq<UserResponse>, id: nat)
  {
    exists p :: p in participants && p.id == id
  }

  /** users.find: the first student who is not yet a participant. */
  function FirstAvailable(users: seq<UserResponse>, participants: seq<UserResponse>): (r: Option<UserResponse>)
    ensures r.None? <==> forall u :: u in users ==> Participates(participants, u.id)
    ensures r.Some? ==> r.value in users && !Participates(participants, r.value.id)
  {
    if |users| == 0 then None
    else if !Participates(participants, users[0].id) then Some(users[0])
    else
      assert forall u :: u in users ==> u == users[0] || u in users[1..];
      FirstAvailable(users[1..], participants)
  }

  /** The student the add form proposes: the first available one, or 0. */
  function ProposedStudent(users: seq<UserResponse>, participants: seq<UserResponse>): nat
  {
    match FirstAvailable(users, participants)
    case Some(u) => u.id
    case None => 0
  }

  /** The student proposed is one who is listed and not yet a participant,
      whenever there is one; 0 only when every listed student participates
      (or the first available has id 0). */
  lemma ProposedStudentAvailable(users: seq<UserResponse>, participants: seq<UserResponse>)
    requires forall u :: u in users ==> u.id != 0
    ensures ProposedStudent(users, participants) == 0 <==> forall u :: u in users ==> Participates(participants, u.id)
    ensures ProposedStudent(users, participants) != 0 ==>
              exists u :: u in users && u.id == ProposedStudent(users, participants) && !Participates(participants, u.id)
  {
  }

  class ParticipantsModal {
    var participants: seq<UserResponse>
    var selectedStudent: nat

    constructor ()
      ensures participants == [] && selectedStudent == 0
    {
      participants := [];
      selectedStudent := 0;
    }

    /** The effect that runs when the students or the participants change;
        it does nothing while the student listing is empty. */
    method Reselect(users: seq<UserResponse>)
      modifies this
      ensures |users| > 0 ==> selectedStudent == ProposedStudent(users, participants)
      ensures |users| == 0 ==> selectedStudent == old(selectedStudent)
      ensures participants == old(participants)
    {
      if |users| == 0 {
        return;
      }
      var available := FirstAvailable(users, participants);
      if available.Some? {
        selectedStudent := available.value.id;
      } else {
        selectedStudent := 0;
      }
    }

    /** The body handleAddParticipant posts. */
    function AddBody(course: Course): CourseHandlers.ParticipantBody
      reads this
    {
      CourseHandlers.ParticipantBody(selectedStudent, course.duration)
    }

    /** handleRemoveParticipant: on an ok reply the participant leaves the list. */
    method Removed(studentId: nat, ok: bool)
      modifies this
      ensures participants == (if ok then Filter(old(participants), ResponseNot(studentId)) else old(participants))
      ensures selectedStudent == old(selectedStudent)
    {
      if ok {
        participants := Filter(participants, ResponseNot(studentId));
      }
    }
  }

  function ResponseNot(id: nat): UserResponse -> bool { (u: UserResponse) => u.id != id }

  /** When every listed student already participates, the form proposes
      student 0, and the participant handler refuses it with 400. */
  lemma AddWhenNoneAvailableRefused(db: Db, users: seq<UserResponse>, participants: seq<UserResponse>,
                                    course: Course, idParam: string, now: Instant)
    requires forall u :: u in users ==> Participates(participants, u.id)
    ensures CourseHandlers.AddParticipantStatus(db, idParam,
              Some(CourseHandlers.ParticipantBody(ProposedStudent(users, participants), course.duration)), now) == 400
  {
  }

  // ---------------------------------------------------------------------
  // Users tab: pending payment changes
  // ---------------------------------------------------------------------

  function PaymentPair(p: CourseHandlers.PaymentRequest): (nat, nat) { (p.userId, p.courseId) }

  /** setChange: the entry for the (user, course) pair is overwritten in
      place when there is one, otherwise a new entry is appended. */
  function SetChangeList(changes: seq<CourseHandlers.PaymentRequest>, userId: nat, courseId: nat, paid: bool)
    : seq<CourseHandlers.PaymentRequest>
  {
    var i := FindIndex(changes, PaymentPair, (userId, courseId));
    var entry := CourseHandlers.PaymentRequest(userId, courseId, paid);
    if i != -1 then changes[i := entry] else changes + [entry]
  }

  /** The paid value pending for a pair, if any: the first entry's. */
  function Pending(changes: seq<CourseHandlers.PaymentRequest>, userId: nat, courseId: nat): Option<bool>
  {
    match First(changes, PaymentPair, (userId, courseId))
    case Some(p) => Some(p.paid)
    case None => None
  }

  /** Read as a map from pairs to paid values, setChange is a map update:
      the pair now holds paid, every other pair what it held, pairs stay
      unique, and the list grows only for a new pair. */
  lemma SetChangeIsMapUpdate(changes: seq<CourseHandlers.PaymentRequest>, userId: nat, courseId: nat, paid: bool)
    requires KeysDistinct(changes, PaymentPair)
    ensures var r := SetChangeList(changes, userId, courseId, paid);
            KeysDistinct(r, PaymentPair) &&
            Pending(r, userId, courseId) == Some(paid) &&
            (forall u: nat, c: nat :: (u, c) != (userId, courseId) ==> Pending(r, u, c) == Pending(changes, u, c)) &&
            |r| == |changes| + (if Pending(changes, userId, courseId).None? then 1 else 0)
  {
    var r := SetChangeList(changes, userId, courseId, paid);
    var i := FindIndex(changes, PaymentPair, (userId, courseId));
    var entry := CourseHandlers.PaymentRequest(userId, courseId, paid);
    if i != -1 {
      forall a, b | 0 <= a < b < |r| ensures PaymentPair(r[a]) != PaymentPair(r[b]) {
        assert PaymentPair(r[a]) == PaymentPair(changes[a]) && PaymentPair(r[b]) == PaymentPair(changes[b]);
      }
      assert r[i] == entry;
      FirstUnique(r, PaymentPair, entry);
      forall u: nat, c: nat | (u, c) != (userId, courseId) ensures Pending(r, u, c) == Pending(changes, u, c) {
        PendingOutside(changes, r, i, u, c);
      }
    } else {
      assert r == changes + [entry];
      forall a, b | 0 <= a < b < |r| ensures PaymentPair(r[a]) != PaymentPair(r[b]) {
        if b == |changes| {
          assert r[a] == changes[a];
        } else {
          assert r[a] == changes[a] && r[b] == changes[b];
        }
      }
      FirstUnique(r, PaymentPair, entry);
      forall u: nat, c: nat | (u, c) != (userId, courseId) ensures Pending(r, u, c) == Pending(changes, u, c) {
        if HasKey(changes, PaymentPair, (u, c)) {
          var p := First(changes, PaymentPair, (u, c)).value;
          FirstUnique(changes, PaymentPair, p);
          FirstUnique(r, PaymentPair, p);
        } else {
          assert !HasKey(r, PaymentPair, (u, c));
        }
      }
    }
  }

  /** Overwriting entry i leaves the lookup of every other pair as it was. */
  lemma PendingOutside(changes: seq<CourseHandlers.PaymentRequest>, r: seq<CourseHandlers.PaymentRequest>, i: nat, u: nat, c: nat)
    requires KeysDistinct(changes, PaymentPair) && KeysDistinct(r, PaymentPair)
    requires i < |changes| && |r| == |changes|
    requires forall k :: 0 <= k < |changes| && k != i ==> r[k] == changes[k]
    requires PaymentPair(changes[i]) != (u, c) && PaymentPair(r[i]) != (u, c)
    ensures Pending(r, u, c) == Pending(changes, u, c)
  {
    if HasKey(changes, PaymentPair, (u, c)) {
      var p := First(changes, PaymentPair, (u, c)).value;
      var k := FindIndex(changes, PaymentPair, (u, c));
      assert r[k] == p;
      FirstUnique(changes, PaymentPair, p);
      FirstUnique(r, PaymentPair, p);
    } else {
      assert !HasKey(r, PaymentPair, (u, c)) by {
        forall k | 0 <= k < |r| ensures PaymentPair(r[k]) != (u, c) {
          if k != i { assert r[k] == changes[k]; }
        }
      }
    }
  }

  /** The payment select's change handler as written: it records the
      opposite of the paid flag the listing showed, whichever option the
      admin picked. */
  function OnPaymentSelectAsWritten(changes: seq<CourseHandlers.PaymentRequest>, userId: nat, courseId: nat,
                                    listedPaid: bool, selectedPaid: bool): seq<CourseHandlers.PaymentRequest>
  {
    SetChangeList(changes, userId, courseId, !listedPaid)
  }

  /** The change handler recording the option picked. */
  function OnPaymentSelect(changes: seq<CourseHandlers.PaymentRequest>, userId: nat, courseId: nat,
                           listedPaid: bool, selectedPaid: bool): seq<CourseHandlers.PaymentRequest>
  {
    SetChangeList(changes, userId, courseId, selectedPaid)
  }

  /** An admin who switches a course's select to the other option and back
      sees the listed value again, but the change as written still records
      the opposite, and saving would send it. */
  lemma SwitchBackStillFlipsAsWritten(userId: nat, courseId: nat, listedPaid: bool)
    ensures var once := OnPaymentSelectAsWritten([], userId, courseId, listedPaid, !listedPaid);
            var twice := OnPaymentSelectAsWritten(once, userId, courseId, listedPaid, listedPaid);
            Pending(twice, userId, courseId) == Some(!listedPaid)
  {
    var once := OnPaymentSelectAsWritten([], userId, courseId, listedPaid, !listedPaid);
    assert once == [CourseHandlers.PaymentRequest(userId, courseId, !listedPaid)];
    assert FindIndex(once, PaymentPair, (userId, courseId)) == 0;
  }

  /** With the option picked recorded, the pending value of a pair is
      always the option last picked for it. */
  lemma PendingIsLastSelection(changes: seq<CourseHandlers.PaymentRequest>, userId: nat, courseId: nat,
                               listedPaid: bool, selectedPaid: bool)
    requires KeysDistinct(changes, PaymentPair)
    ensures var r := OnPaymentSelect(changes, userId, courseId, listedPaid, selectedPaid);
            KeysDistinct(r, PaymentPair) && Pending(r, userId, courseId) == Some(selectedPaid)
  {
    SetChangeIsMapUpdate(changes, userId, courseId, selectedPaid);
  }

  // ---------------------------------------------------------------------
  // Users tab: the panel
  // ---------------------------------------------------------------------

  /** A row of the users table: a listed user, or the reply of a
      registration, which the tab appends as it is (it carries no user). */
  datatype UserEntry = Listed(user: UserResponse) | RegisterReply

  function EntryNot(id: nat): UserEntry -> bool
  {
    (e: UserEntry) => !(e.Listed? && e.user.id == id)
  }

  /** One course of a student as the student-courses listing returns it. */
  datatype CourseEntry = CourseEntry(courseId: nat, name: string, paid: bool)

  datatype UserCourses = UserCourses(userId: nat, courseList: seq<CourseEntry>)

  function CoursesUser(uc: UserCourses): nat { uc.userId }

  /** The functional update setUserCourses applies to the cache: the
      entry of the reply's user replaced, or a new entry appended. */
  function Upsert(cache: seq<UserCourses>, userId: nat, courses: seq<CourseEntry>): seq<UserCourses>
  {
    var i := FindIndex(cache, CoursesUser, userId);
    if i != -1 then cache[i := UserCourses(userId, courses)] else cache + [UserCourses(userId, courses)]
  }

  /** The cache keeps one entry per user, and after an upsert the user's
      entry holds the courses received. */
  lemma UpsertKeepsOneEntryPerUser(cache: seq<UserCourses>, userId: nat, courses: seq<CourseEntry>)
    requires KeysDistinct(cache, CoursesUser)
    ensures var r := Upsert(cache, userId, courses);
            KeysDistinct(r, CoursesUser) && First(r, CoursesUser, userId) == Some(UserCourses(userId, courses)) &&
            (forall uc :: uc in cache && uc.userId != userId ==> uc in r)
  {
    var r := Upsert(cache, userId, courses);
    var i := FindIndex(cache, CoursesUser, userId);
    if i != -1 {
      forall a, b | 0 <= a < b < |r| ensures CoursesUser(r[a]) != CoursesUser(r[b]) {
        assert CoursesUser(r[a]) == CoursesUser(cache[a]) && CoursesUser(r[b]) == CoursesUser(cache[b]);
      }
      forall uc | uc in cache && uc.userId != userId ensures uc in r {
        var k :| 0 <= k < |cache| && cache[k] == uc;
        assert r[k] == uc;
      }
    } else {
      forall a, b | 0 <= a < b < |r| ensures CoursesUser(r[a]) != CoursesUser(r[b]) {
        if b == |cache| {
          assert r[a] == cache[a];
        } else {
          assert r[a] == cache[a] && r[b] == cache[b];
        }
      }
      assert r[|cache|] == UserCourses(userId, courses);
    }
    assert r[if i != -1 then i else |cache|] == UserCourses(userId, courses);
    FirstUnique(r, CoursesUser, UserCourses(userId, courses));
  }

  /** "Student hasn't subscribed on any course yet." is shown for a user
      with no cached entry or an empty course list. */
  predicate ShowsNoSubscription(cache: seq<UserCourses>, userId: nat)
  {
    match First(cache, CoursesUser, userId)
    case None => true
    case Some(uc) => |uc.courseList| == 0
  }

  class UsersPanel {
    var users: seq<UserEntry>
    var dropdown: nat
    var changesDetected: bool
    var detectChanges: seq<CourseHandlers.PaymentRequest>
    var userCourses: seq<UserCourses>

    /** The tab mounts with the student listing, nothing expanded, no
        pending change and an empty cache. */
    constructor (students: seq<UserResponse>)
      ensures |users| == |students| && forall k :: 0 <= k < |students| ==> users[k] == Listed(students[k])
      ensures dropdown == 0 && !changesDetected && detectChanges == [] && userCourses == []
    {
      users := seq(|students|, k requires 0 <= k < |students| => Listed(students[k]));
      dropdown := 0;
      changesDetected := false;
      detectChanges := [];
      userCourses := [];
    }

    /** The panel's invariant: one pending change per pair, one cache entry
        per user, and the Save button enabled once a change is pending. */
    ghost predicate Valid()
      reads this
    {
      KeysDistinct(detectChanges, PaymentPair) && KeysDistinct(userCourses, CoursesUser) &&
      (|detectChanges| > 0 ==> changesDetected)
    }

    /** setChange, as the select's handler calls it. */
    method SetChange(userId: nat, courseId: nat, paid: bool)
      requires Valid()
      modifies this
      ensures Valid()
      ensures detectChanges == SetChangeList(old(detectChanges), userId, courseId, paid)
      ensures changesDetected == (old(changesDetected) || Pending(old(detectChanges), userId, courseId).None?)
      ensures users == old(users) && dropdown == old(dropdown) && userCourses == old(userCourses)
    {
      SetChangeIsMapUpdate(detectChanges, userId, courseId, paid);
      var exists_ := FindIndex(detectChanges, PaymentPair, (userId, courseId));
      if exists_ != -1 {
        detectChanges := detectChanges[exists_ := CourseHandlers.PaymentRequest(userId, courseId, paid)];
      } else {
        detectChanges := detectChanges + [CourseHandlers.PaymentRequest(userId, courseId, paid)];
        changesDetected := true;
      }
    }

    /** sendChanges: the pending list is the body of the payments request. */
    method SendChanges() returns (body: seq<CourseHandlers.PaymentRequest>)
      ensures body == detectChanges
    {
      body := detectChanges;
    }

    /** handleRegister: on an ok reply the reply itself is appended. */
    method Registered(ok: bool)
      modifies this
      ensures users == (if ok then old(users) + [RegisterReply] else old(users))
      ensures dropdown == old(dropdown) && changesDetected == old(changesDetected)
      ensures detectChanges == old(detectChanges) && userCourses == old(userCourses)
    {
      if ok {
        users := users + [RegisterReply];
      }
    }

    /** handleDeleteUser: nothing unless confirmed; on an ok reply the user
        leaves the list. */
    method DeleteUser(id: nat, confirmed: bool, ok: bool)
      modifies this
      ensures users == (if confirmed && ok then Filter(old(users), EntryNot(id)) else old(users))
      ensures dropdown == old(dropdown) && changesDetected == old(changesDetected)
      ensures detectChanges == old(detectChanges) && userCourses == old(userCourses)
    {
      if !confirmed {
        return;
      }
      if ok {
        users := Filter(users, EntryNot(id));
      }
    }

    /** handleDropdownChange: expand the user's row, and fetch the user's
        courses unless they are cached; reply is the ok reply's user id and
        courses, None otherwise. Returns whether a request was made. */
    method DropdownChange(user: nat, reply: Option<(nat, seq<CourseEntry>)>) returns (fetched: bool)
      requires Valid()
      modifies this
      ensures Valid()
      ensures dropdown == (if user != 0 then user else old(dropdown))
      ensures fetched <==> !HasKey(old(userCourses), CoursesUser, user)
      ensures fetched && reply.Some? ==> userCourses == Upsert(old(userCourses), reply.value.0, reply.value.1)
      ensures !(fetched && reply.Some?) ==> userCourses == old(userCourses)
      ensures users == old(users) && detectChanges == old(detectChanges) && changesDetected == old(changesDetected)
    {
      if user != 0 && dropdown != user {
        dropdown := user;
      }
      if FindIndex(userCourses, CoursesUser, user) != -1 {
        return false;
      }
      fetched := true;
      if reply.Some? {
        UpsertKeepsOneEntryPerUser(userCourses, reply.value.0, reply.value.1);
        userCourses := Upsert(userCourses, reply.value.0, reply.value.1);
      }
    }
  }

  /** A user's courses are requested at most once: after an ok reply for
      that user, expanding the row again makes no request. */
  lemma CoursesFetchedOnce(cache: seq<UserCourses>, user: nat, courses: seq<CourseEntry>)
    requires KeysDistinct(cache, CoursesUser)
    ensures HasKey(Upsert(cache, user, courses), CoursesUser, user)
  {
    UpsertKeepsOneEntryPerUser(cache, user, courses);
  }

  /** The role choice "staff" of the registration form is refused by the
      store's role check, so such a registration always fails with 500. */
  lemma StaffRegistrationRefused(db: Db, row: User, hashOk: bool)
    requires row.password.Plain? && row.role == "staff"
    ensures CreateUser(db, row, hashOk).None?
  {
  }
}
