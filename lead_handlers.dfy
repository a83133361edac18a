/** The lead handlers: creating a lead together with its sales row, and
    deleting leads. A lead's date is read with Go's layout "2006-01-02", the
    full-date form of section 5.6 of RFC 3339. */
module LeadHandlers {
  import opened Common
  import opened Models
  import opened Http

  // ---------------------------------------------------------------------
  // Full dates
  // ---------------------------------------------------------------------

  predicate IsLeapYear(year: int)
  {
    year % 4 == 0 && (year % 100 != 0 || year % 400 == 0)
  }

  function DaysIn(month: int, year: int): int
    requires 1 <= month <= 12
  {
    if month == 2 then (if IsLeapYear(year) then 29 else 28)
    else if month == 4 || month == 6 || month == 9 || month == 11 then 30
    else 31
  }

  /** A date the layout can produce: a four-digit year, a month of the
      year and a day of that month. */
  predicate ValidDate(d: Date)
  {
    0 <= d.year <= 9999 && 1 <= d.month <= 12 && 1 <= d.day <= DaysIn(d.month, d.year)
  }

  function Pow10(n: nat): nat
  {
    if n == 0 then 1 else 10 * Pow10(n - 1)
  }

  /** The last width decimal digits of n, zero-padded (a fixed-width field
      of the layout). */
  function PadDigits(n: nat, width: nat): (r: string)
    ensures |r| == width && AllDigits(r)
  {
    if width == 0 then [] else PadDigits(n / 10, width - 1) + [DigitChar(n % 10)]
  }

  /** A number that fits the width is read back from its padded digits. */
  lemma {:induction false} PadDigitsValue(n: nat, width: nat)
    requires n < Pow10(width)
    ensures DecimalValue(PadDigits(n, width)) == n
  {
    if width > 0 {
      assert n / 10 < Pow10(width - 1);
      PadDigitsValue(n / 10, width - 1);
      var r := PadDigits(n, width);
      assert r[..|r| - 1] == PadDigits(n / 10, width - 1);
    }
  }

  /** A field of digits is the padding of its own value. */
  lemma {:induction false} PadDigitsOfValue(s: string)
    requires AllDigits(s)
    ensures DecimalValue(s) < Pow10(|s|)
    ensures PadDigits(DecimalValue(s), |s|) == s
  {
    if |s| > 0 {
      var p := s[..|s| - 1];
      var c := s[|s| - 1];
      PadDigitsOfValue(p);
      var v := DecimalValue(s);
      assert v == 10 * DecimalValue(p) + DigitValue(c);
      assert v / 10 == DecimalValue(p) && v % 10 == DigitValue(c);
      assert DigitChar(DigitValue(c)) == c;
      assert s == p + [c];
    }
  }

  /** The text has the shape dddd-dd-dd. */
  predicate FullDateShape(s: string)
  {
    |s| == 10 && s[4] == '-' && s[7] == '-' &&
    AllDigits(s[..4]) && AllDigits(s[5..7]) && AllDigits(s[8..])
  }

  /** time.Parse("2006-01-02", s): exactly four year digits, two month
      digits and two day digits joined by '-', nothing after them, the month
      in 1..12 and the day within that month of that year. */
  function ParseFullDate(s: string): (r: Option<Date>)
    ensures r.Some? ==> ValidDate(r.value) && |s| == 10
  {
    if FullDateShape(s) then
      var d := Date(DecimalValue(s[..4]), DecimalValue(s[5..7]), DecimalValue(s[8..]));
      if ValidDate(d) then Some(d) else None
    else None
  }

  /** The date rendered in the same layout. */
  function FormatDate(d: Date): (r: string)
    requires ValidDate(d)
    ensures |r| == 10
  {
    PadDigits(d.year, 4) + "-" + PadDigits(d.month, 2) + "-" + PadDigits(d.day, 2)
  }

  /** Every date the layout can express is read back from its rendering. */
  lemma FormatThenParse(d: Date)
    requires ValidDate(d)
    ensures ParseFullDate(FormatDate(d)) == Some(d)
  {
    var s := FormatDate(d);
    assert s[..4] == PadDigits(d.year, 4);
    assert s[5..7] == PadDigits(d.month, 2);
    assert s[8..] == PadDigits(d.day, 2);
    PadDigitsValue(d.year, 4);
    PadDigitsValue(d.month, 2);
    PadDigitsValue(d.day, 2);
  }

  /** A text the layout accepts is exactly the rendering of the date read:
      there is one spelling of each date. */
  lemma ParseThenFormat(s: string)
    requires ParseFullDate(s).Some?
    ensures FormatDate(ParseFullDate(s).value) == s
  {
    PadDigitsOfValue(s[..4]);
    PadDigitsOfValue(s[5..7]);
    PadDigitsOfValue(s[8..]);
    assert s == s[..4] + "-" + s[5..7] + "-" + s[8..];
  }

  /** The fields of "yyyy-02-29" for a year spelled "20" + y2. */
  lemma LeapDayFields(s: string, y2: string)
    requires s == "20" + y2 + "-02-29" && |y2| == 2 && AllDigits(y2)
    ensures FullDateShape(s)
    ensures DecimalValue(s[..4]) == 2000 + DecimalValue(y2)
    ensures DecimalValue(s[5..7]) == 2 && DecimalValue(s[8..]) == 29
  {
    assert s[..4] == "20" + y2;
    assert s[5..7] == "02" && s[8..] == "29";
    assert ("20" + y2)[..3] == "20" + [y2[0]] && ("20" + [y2[0]])[..2] == "20";
    assert "20"[..1] == "2" && "2"[..0] == "";
    assert "02"[..1] == "0" && "29"[..1] == "2" && "0"[..0] == "";
    assert y2[..1] == [y2[0]] && [y2[0]][..0] == [];
  }

  /** February 29 is a date in a leap year and not in any other. */
  lemma LeapDayExamples()
    ensures ParseFullDate("2024-02-29") == Some(Date(2024, 2, 29))
    ensures ParseFullDate("2023-02-29").None?
  {
    LeapDayFields("2024-02-29", "24");
    assert "24"[..1] == "2";
    LeapDayFields("2023-02-29", "23");
    assert "23"[..1] == "2";
  }

  // ---------------------------------------------------------------------
  // AddLead
  // ---------------------------------------------------------------------

  /** The JSON body; every member is a string and none is required. */
  datatype LeadRequest = LeadRequest(
    description: string, date: string, name: string, phone: string, igNick: string,
    status: string, source: string, author: string, course: string)

  /** The lead row the handler fills from the request. */
  function NewLeadRow(req: LeadRequest, date: Date): Lead
  {
    Lead(0, req.description, req.name, date, req.phone, req.igNick, req.source, req.status, req.author, req.course)
  }

  /** A sales row for a lead and a group; the columns the sales team edits
      start at their zero values. */
  function NewSalesRow(leadId: nat, groupId: nat): Sales
  {
    Sales(0, leadId, groupId, "", "", false, "")
  }

  /** The id `WHERE name = course` finds, or 0 when no course has that
      name (the lookup error is ignored and the zero value stays). */
  function CourseIdByName(db: Db, name: string): (id: nat)
    ensures id != 0 ==> exists c :: c in db.courses && c.name == name && c.id == id
  {
    match First(db.courses, CourseName, name)
    case Some(c) => c.id
    case None => 0
  }

  /** The guards before anything is written, in order: the body parses
      (400), the date parses (400), the session holds a user (401), the
      author is that user's email (401), and no lead has the phone (400).
      0 means every guard passed. */
  function AddLeadGuard(db: Db, session: SessionValue, req: Option<LeadRequest>): int
  {
    if req.None? then 400
    else if ParseFullDate(req.value.date).None? then 400
    else if !session.UserSession? then 401
    else if req.value.author == "" || req.value.author != session.user.email then 401
    else if HasKey(db.leads, LeadPhone, req.value.phone) then 400
    else 0
  }

  /** The insert of the lead, whose error is ignored: the store after it,
      unchanged when the row is refused. The schema as written checks
      neither source nor status, so any values are stored. */
  function LeadInserted(db: Db, req: LeadRequest, date: Date): Db
  {
    match CreateLeadAsWritten(db, NewLeadRow(req, date))
    case Some(db') => db'
    case None => db
  }

  /** The status AddLead answers and the store it leaves. Once the guards
      pass, the lead is inserted; a course name no course has then answers
      401 with the lead kept. Otherwise a sales row is inserted for the lead
      and the course and 201 is answered. The sales row names the lead as an
      association too, so when the lead insert was refused the association
      insert is refused the same way and no sales row is written. */
  function AddLeadOutcome(db: Db, session: SessionValue, req: Option<LeadRequest>): (int, Db)
  {
    var guard := AddLeadGuard(db, session, req);
    if guard != 0 then (guard, db)
    else
      var date := ParseFullDate(req.value.date).value;
      var db1 := LeadInserted(db, req.value, date);
      var groupId := CourseIdByName(db1, req.value.course);
      if groupId == 0 then (401, db1)
      else if db1 == db then (201, db)
      else
        match CreateSales(db1, NewSalesRow(NextId(db.leads, LeadKey), groupId))
        case Some(db2) => (201, db2)
        case None => (201, db1)
  }

  /** AddLead, statement by statement. */
  method AddLead(store: Store, ctx: Context, sess: Session, req: Option<LeadRequest>)
    modifies store, ctx
    ensures ctx.status == Written(old(ctx.status), AddLeadOutcome(old(store.db), sess.value, req).0)
    ensures store.db == AddLeadOutcome(old(store.db), sess.value, req).1
    ensures DbValid(old(store.db)) ==> DbValid(store.db)
  {
    ghost var db0 := store.db;
    AddLeadKeepsValid(db0, sess.value, req);
    if req.None? {
      ctx.JSON(400);
      return;
    }
    var q := req.value;
    var t := ParseFullDate(q.date);
    if t.None? {
      ctx.JSON(400);
      return;
    }
    if !sess.value.UserSession? {
      ctx.JSON(401);
      return;
    }
    var user := sess.value.user;
    if q.author == "" || q.author != user.email {
      ctx.JSON(401);
      return;
    }
    var leadModel := NewLeadRow(q, t.value);
    if HasKey(store.db.leads, LeadPhone, q.phone) {
      ctx.JSON(400);
      return;
    }
    var before := store.db;
    assert AddLeadGuard(before, sess.value, req) == 0;
    store.db := LeadInserted(store.db, q, t.value);
    var courseId := CourseIdByName(store.db, q.course);
    if courseId == 0 {
      ctx.JSON(401);
      return;
    }
    if store.db != before {
      var created := CreateSales(store.db, NewSalesRow(NextId(before.leads, LeadKey), courseId));
      if created.Some? {
        store.db := created.value;
      }
    }
    ctx.JSON(201);
  }

  /** AddLead keeps the store valid, one lead per phone included. */
  lemma AddLeadKeepsValid(db: Db, session: SessionValue, req: Option<LeadRequest>)
    ensures DbValid(db) ==> DbValid(AddLeadOutcome(db, session, req).1)
  {
    if DbValid(db) && AddLeadGuard(db, session, req) == 0 {
      var q := req.value;
      var date := ParseFullDate(q.date).value;
      assert !HasKey(db.leads, LeadPhone, NewLeadRow(q, date).phone);
      var db1 := LeadInserted(db, q, date);
      assert DbValid(db1);
      var g := CourseIdByName(db1, q.course);
      if g != 0 && db1 != db {
        var created := CreateSales(db1, NewSalesRow(NextId(db.leads, LeadKey), g));
        assert AddLeadOutcome(db, session, req).1 == if created.Some? then created.value else db1;
      }
    }
  }

  /** Whatever else the request holds, a phone some lead already has is
      refused before anything is written. */
  lemma DuplicatePhoneWritesNothing(db: Db, session: SessionValue, req: LeadRequest)
    requires HasKey(db.leads, LeadPhone, req.phone)
    ensures AddLeadOutcome(db, session, Some(req)).1 == db
    ensures AddLeadOutcome(db, session, Some(req)).0 in {400, 401}
  {
  }

  /** A lead is stored only when every guard passed, and it is the request's
      row under the next id: the request's fields unchanged, its author the
      session user's email, and its date one whose rendering is the
      request's date text. */
  lemma StoredLeadCopiesRequest(db: Db, session: SessionValue, req: Option<LeadRequest>)
    requires AddLeadOutcome(db, session, req).1.leads != db.leads
    ensures AddLeadGuard(db, session, req) == 0
    ensures var r := AddLeadOutcome(db, session, req).1;
            var q := req.value;
            exists d: Date ::
              r.leads == db.leads + [Lead(NextId(db.leads, LeadKey), q.description, q.name, d, q.phone,
                                          q.igNick, q.source, q.status, q.author, q.course)] &&
              ValidDate(d) && FormatDate(d) == q.date
    ensures session.UserSession? && req.value.author == session.user.email
    ensures !HasKey(db.leads, LeadPhone, req.value.phone)
  {
    var q := req.value;
    var d := ParseFullDate(q.date).value;
    ParseThenFormat(q.date);
    var r := AddLeadOutcome(db, session, req).1;
    assert r.leads == db.leads + [NewLeadRow(q, d).(id := NextId(db.leads, LeadKey))];
  }

  /** When no course has the requested name, the answer is 401 although the
      lead has been stored, and no sales row refers to it. */
  lemma OrphanLeadWithoutCourse(db: Db, session: SessionValue, req: LeadRequest)
    requires AddLeadGuard(db, session, Some(req)) == 0
    requires NextId(db.leads, LeadKey) < TwoTo63
    requires forall c :: c in db.courses ==> c.name != req.course
    ensures AddLeadOutcome(db, session, Some(req)).0 == 401
    ensures |AddLeadOutcome(db, session, Some(req)).1.leads| == |db.leads| + 1
    ensures AddLeadOutcome(db, session, Some(req)).1.sales == db.sales
  {
    var date := ParseFullDate(req.date).value;
    var db1 := LeadInserted(db, req, date);
    assert db1.courses == db.courses;
    forall i | 0 <= i < |db.courses| ensures CourseName(db.courses[i]) != req.course {
      assert db.courses[i] in db.courses;
    }
    assert !HasKey(db1.courses, CourseName, req.course);
  }

  /** A sales row is written only with a 201, and it refers to the lead
      written by the same request and to a course of the requested name. */
  lemma SalesRowRefersToNewLead(db: Db, session: SessionValue, req: Option<LeadRequest>)
    requires |AddLeadOutcome(db, session, req).1.sales| != |db.sales|
    ensures AddLeadOutcome(db, session, req).0 == 201
    ensures var r := AddLeadOutcome(db, session, req).1;
            |r.sales| == |db.sales| + 1 && |r.leads| == |db.leads| + 1 &&
            r.sales[|db.sales|].leadId == r.leads[|db.leads|].id &&
            r.leads[|db.leads|].phone == req.value.phone &&
            exists c :: c in db.courses && c.name == req.value.course && c.id == r.sales[|db.sales|].groupId
  {
    var q := req.value;
    var date := ParseFullDate(q.date).value;
    var db1 := LeadInserted(db, q, date);
    assert db1 != db;
    assert CreateLeadAsWritten(db, NewLeadRow(q, date)).Some?;
    assert db1.courses == db.courses;
  }

  /** 201 is answered exactly when every guard passed and a course of the
      requested name exists. */
  lemma CreatedIffCourseFound(db: Db, session: SessionValue, req: Option<LeadRequest>)
    requires DbValid(db)
    ensures AddLeadOutcome(db, session, req).0 == 201 <==>
              AddLeadGuard(db, session, req) == 0 && exists c :: c in db.courses && c.name == req.value.course
  {
    if AddLeadGuard(db, session, req) == 0 {
      var q := req.value;
      var date := ParseFullDate(q.date).value;
      var db1 := LeadInserted(db, q, date);
      assert db1.courses == db.courses;
      if exists c :: c in db.courses && c.name == q.course {
        CourseIdFound(db1, q.course);
      }
    }
  }

  // ---------------------------------------------------------------------
  // DeleteLeads
  // ---------------------------------------------------------------------

  function LeadIdNot(n: int): Lead -> bool { (l: Lead) => l.id as int != n }
  function LeadNotIn(selected: Lead -> bool): Lead -> bool { (l: Lead) => !selected(l) }

  /** The rows `Delete(&Lead{}, id)` keeps. A numeral (as strconv.Atoi reads
      it) is taken as a primary key, and a negative one matches no row. Any
      other text is placed into the WHERE clause as SQL; the rows that SQL
      selects (none when it fails) are the parameter rawSelected. */
  function LeadsKept(idParam: string, rawSelected: Lead -> bool): Lead -> bool
  {
    match Atoi(idParam)
    case Some(n) => LeadIdNot(n)
    case None => LeadNotIn(rawSelected)
  }

  /** A lead the delete selects is named by a sales row: the foreign key of
      the sales table refuses the whole statement. */
  predicate DeleteBlocked(db: Db, keep: Lead -> bool)
  {
    exists i :: 0 <= i < |db.leads| && !keep(db.leads[i]) && HasKey(db.sales, SalesLead, db.leads[i].id)
  }

  /** The leads after `DELETE ... WHERE`: the rows keep admits, or all of
      them when the statement is refused. */
  function LeadsAfterDelete(db: Db, keep: Lead -> bool): seq<Lead>
  {
    if DeleteBlocked(db, keep) then db.leads else Filter(db.leads, keep)
  }

  /** Removing leads keeps the store valid: a statement that would remove a
      lead some sales row names is refused. */
  lemma DeleteLeadsValid(db: Db, keep: Lead -> bool)
    requires DbValid(db)
    ensures DbValid(db.(leads := LeadsAfterDelete(db, keep)))
  {
    if !DeleteBlocked(db, keep) {
      var db' := db.(leads := Filter(db.leads, keep));
      IdsAscendingFilter(db.leads, keep, LeadKey);
      FilterKeepsKeysDistinct(db.leads, keep, LeadPhone);
      forall i | 0 <= i < |db.sales| ensures HasKey(db'.leads, LeadKey, db.sales[i].leadId) {
        var k := db.sales[i].leadId;
        forall x | x in db.leads && LeadKey(x) == k ensures keep(x) {
          var j :| 0 <= j < |db.leads| && db.leads[j] == x;
          assert SalesLead(db.sales[i]) == db.leads[j].id;
        }
        HasKeyFilter(db.leads, keep, LeadKey, k);
      }
    }
  }

  /** DeleteLeads: 400 for an empty id; otherwise the delete runs, its error
      is ignored and nothing is written, so the response keeps the status it
      had (the framework's 200 when none). */
  method DeleteLeads(store: Store, ctx: Context, idParam: string, rawSelected: Lead -> bool)
    modifies store, ctx
    ensures idParam == "" ==> ctx.status == Written(old(ctx.status), 400) && store.db == old(store.db)
    ensures idParam != "" ==>
              ctx.status == old(ctx.status) &&
              store.db == old(store.db).(leads := LeadsAfterDelete(old(store.db), LeadsKept(idParam, rawSelected)))
    ensures DbValid(old(store.db)) ==> DbValid(store.db)
  {
    if idParam == "" {
      ctx.JSON(400);
      return;
    }
    var keep := LeadsKept(idParam, rawSelected);
    if DbValid(store.db) {
      DeleteLeadsValid(store.db, keep);
    }
    if !DeleteBlocked(store.db, keep) {
      store.db := store.db.(leads := Filter(store.db.leads, keep));
    }
  }

  /** Deleting by the id a client renders removes that lead, and only it,
      exactly when no sales row names it; otherwise nothing is removed. */
  lemma DeleteByRenderedId(db: Db, l: Lead, rawSelected: Lead -> bool)
    requires DbValid(db)
    requires l in db.leads
    ensures var kept := LeadsAfterDelete(db, LeadsKept(NatToString(l.id), rawSelected));
            (l !in kept <==> !HasKey(db.sales, SalesLead, l.id)) &&
            forall m :: m in db.leads && m.id != l.id ==> m in kept
  {
    var i :| 0 <= i < |db.leads| && db.leads[i] == l;
    assert l.id < TwoTo63;
    AtoiReadsRenderedId(l.id);
    var keep := LeadsKept(NatToString(l.id), rawSelected);
    assert keep == LeadIdNot(l.id);
    if HasKey(db.sales, SalesLead, l.id) {
      assert !keep(db.leads[i]);
      assert DeleteBlocked(db, keep);
    }
  }

  /** A lead stored together with its sales row can never be deleted: the
      sales row names it, so deleting it by its id is refused. */
  lemma LeadWithSalesRowKept(db: Db, session: SessionValue, req: Option<LeadRequest>, rawSelected: Lead -> bool)
    requires DbValid(db)
    requires |AddLeadOutcome(db, session, req).1.sales| != |db.sales|
    ensures var r := AddLeadOutcome(db, session, req).1;
            |r.leads| == |db.leads| + 1 &&
            LeadsAfterDelete(r, LeadsKept(NatToString(r.leads[|db.leads|].id), rawSelected)) == r.leads
  {
    var r := AddLeadOutcome(db, session, req).1;
    SalesRowRefersToNewLead(db, session, req);
    AddLeadKeepsValid(db, session, req);
    var l := r.leads[|db.leads|];
    assert SalesLead(r.sales[|db.sales|]) == l.id;
    DeleteByRenderedId(r, l, rawSelected);
  }

  /** A course name some stored course has is found with a non-zero id. */
  lemma CourseIdFound(db: Db, name: string)
    requires IdsAscending(db.courses, CourseKey)
    requires exists c :: c in db.courses && c.name == name
    ensures CourseIdByName(db, name) != 0
  {
    var c :| c in db.courses && c.name == name;
    var i :| 0 <= i < |db.courses| && db.courses[i] == c;
    assert CourseName(db.courses[i]) == name;
    var k := FindIndex(db.courses, CourseName, name);
  }

  /** As written, a lead with a source and a status outside the intended
      lists, naming a stored course, is stored with its sales row and
      answered 201, and the stored leads are then no longer all checked. */
  lemma UncheckedLeadStored(db: Db, session: SessionValue, req: LeadRequest)
    requires DbValid(db)
    requires AddLeadGuard(db, session, Some(req)) == 0
    requires !LeadSource(req.source) || !LeadStatus(req.status)
    requires NextId(db.leads, LeadKey) < TwoTo63 && NextId(db.sales, SalesKey) < TwoTo63
    requires exists c :: c in db.courses && c.name == req.course
    ensures var r := AddLeadOutcome(db, session, Some(req));
            r.0 == 201 && |r.1.leads| == |db.leads| + 1 && |r.1.sales| == |db.sales| + 1 &&
            r.1.leads[|db.leads|].source == req.source && r.1.leads[|db.leads|].status == req.status &&
            !LeadsChecked(r.1.leads)
  {
    var date := ParseFullDate(req.date).value;
    var l := NewLeadRow(req, date).(id := NextId(db.leads, LeadKey));
    var db1 := db.(leads := db.leads + [l]);
    assert LeadInserted(db, req, date) == db1;
    assert |db1.leads| != |db.leads|;
    var g := CourseIdByName(db1, req.course);
    CourseIdFound(db1, req.course);
    assert HasKey(db1.leads, LeadKey, NextId(db.leads, LeadKey)) by {
      assert LeadKey(db1.leads[|db.leads|]) == NextId(db.leads, LeadKey);
    }
    var db2 := CreateSales(db1, NewSalesRow(NextId(db.leads, LeadKey), g)).value;
    assert AddLeadOutcome(db, session, Some(req)) == (201, db2);
    assert db2.leads[|db.leads|] == l;
    assert !(LeadSource(l.source) && LeadStatus(l.status));
  }
}
