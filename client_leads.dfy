/** The lead page: the new-lead row the lead team fills in, the checks made
    before it is posted, the date column of the listing and lead deletion. */
module ClientLeads {
  import opened Common
  import opened Models
  import opened Http
  import opened LeadHandlers

  /** The row being filled in; its members, in the order the object holds
      them, are the request's JSON members. */
  datatype LeadRow = LeadRow(
    date: string, description: string, igNick: string, name: string, phone: string,
    source: string, status: string, author: string, course: string)

  /** The row the page starts from: source "dm", status "new", the current
      user's email as author, everything else empty. */
  function DefaultRow(currentUser: Option<UserResponse>): LeadRow
  {
    LeadRow("", "", "", "", "", "dm", "new", if currentUser.Some? then currentUser.value.email else "", "")
  }

  /** Object.values of the row, in insertion order. */
  function Values(row: LeadRow): seq<string>
  {
    [row.date, row.description, row.igNick, row.name, row.phone, row.source, row.status, row.author, row.course]
  }

  datatype LeadField = DateField | DescriptionField | IgNickField | NameField | PhoneField
                     | SourceField | StatusField | CourseField

  /** The position of a field among the row's values. */
  function Position(f: LeadField): nat
  {
    match f
    case DateField => 0
    case DescriptionField => 1
    case IgNickField => 2
    case NameField => 3
    case PhoneField => 4
    case SourceField => 5
    case StatusField => 6
    case CourseField => 8
  }

  /** `{...prev, field: value}`: the spread keeps the members' order. */
  function WithField(row: LeadRow, f: LeadField, v: string): LeadRow
  {
    match f
    case DateField => row.(date := v)
    case DescriptionField => row.(description := v)
    case IgNickField => row.(igNick := v)
    case NameField => row.(name := v)
    case PhoneField => row.(phone := v)
    case SourceField => row.(source := v)
    case StatusField => row.(status := v)
    case CourseField => row.(course := v)
  }

  /** An edit sets its field's value and leaves the other values, and the
      author, in place. */
  lemma WithFieldSetsOneValue(row: LeadRow, f: LeadField, v: string)
    ensures var r := Values(WithField(row, f, v));
            |r| == 9 && r[Position(f)] == v &&
            forall k :: 0 <= k < 9 && k != Position(f) ==> r[k] == Values(row)[k]
  {
  }

  /** The JSON body the row is posted as, as the lead handler binds it. */
  function ToRequest(row: LeadRow): LeadRequest
  {
    LeadRequest(row.description, row.date, row.name, row.phone, row.igNick, row.status, row.source, row.author, row.course)
  }

  /** The course select's placeholder options as the submit check names
      them: "NO COURSE", which is not an option of the select. */
  predicate IsPlaceholderAsWritten(course: string)
  {
    course == "NO COURSE" || course == "-- Select Course --"
  }

  /** The select's placeholder options: "-- Select Course --", and
      "NO COURSES" when there are no courses. */
  predicate IsPlaceholder(course: string)
  {
    course == "NO COURSES" || course == "-- Select Course --"
  }

  datatype SendOutcome = AlertSelectCourse | AlertEmptyField | Posted(req: LeadRequest)

  /** What sendLeadRequest does with a row: the course check comes before
      the empty-value check, and only a row passing both is posted. */
  function SendOutcomeFor(row: LeadRow, placeholder: bool): (o: SendOutcome)
    ensures o.Posted? <==> !placeholder && forall k :: 0 <= k < 9 ==> Values(row)[k] != ""
    ensures o.Posted? ==> o.req == ToRequest(row)
    ensures o == AlertEmptyField ==> !placeholder
  {
    if placeholder then AlertSelectCourse
    else if "" in Values(row) then AlertEmptyField
    else Posted(ToRequest(row))
  }

  class LeadPage {
    var leads: seq<Lead>
    var rowAdded: bool
    var row: LeadRow

    /** The page mounts with the listing, no new row shown, and the default row. */
    constructor (leads: seq<Lead>, currentUser: Option<UserResponse>)
      ensures this.leads == leads && !rowAdded && row == DefaultRow(currentUser)
    {
      this.leads := leads;
      rowAdded := false;
      row := DefaultRow(currentUser);
    }

    /** "Add row": shows the new row, which enables "Save row". */
    method AddRow()
      modifies this
      ensures rowAdded && leads == old(leads) && row == old(row)
    {
      rowAdded := true;
    }

    /** An input's change handler. */
    method Edit(f: LeadField, v: string)
      modifies this
      ensures row == WithField(old(row), f, v) && leads == old(leads) && rowAdded == old(rowAdded)
    {
      row := WithField(row, f, v);
    }

    /** sendLeadRequest, with the placeholder check naming the select's
        options: the loop looks for an empty value, stopping at the first. */
    method SendLeadRequest() returns (o: SendOutcome)
      requires rowAdded
      ensures o == SendOutcomeFor(row, IsPlaceholder(row.course))
    {
      var values := Values(row);
      var emptyValueFound := false;
      var i := 0;
      while i < |values|
        invariant 0 <= i <= |values|
        invariant !emptyValueFound ==> forall k :: 0 <= k < i ==> values[k] != ""
        invariant emptyValueFound ==> "" in values
      {
        if values[i] == "" {
          emptyValueFound := true;
          break;
        }
        i := i + 1;
      }
      if row.course == "NO COURSES" || row.course == "-- Select Course --" {
        return AlertSelectCourse;
      }
      if emptyValueFound {
        return AlertEmptyField;
      }
      return Posted(ToRequest(row));
    }

    /** deleteLead: nothing unless confirmed; otherwise the path requested,
        with 0 standing for a row without an id. The listing is not
        reloaded either way. */
    method DeleteLead(id: Option<nat>, confirmed: bool) returns (path: Option<string>)
      ensures path.Some? <==> confirmed
      ensures path.Some? ==> path.value == "/leads/" + NatToString(if id.Some? then id.value else 0)
    {
      if !confirmed {
        return None;
      }
      var target := if id.Some? then id.value else 0;
      return Some("/leads/" + NatToString(target));
    }
  }

  // ---------------------------------------------------------------------
  // Properties across the page and the lead handler
  // ---------------------------------------------------------------------

  /** As written, the "NO COURSES" option passes the placeholder check: a
      complete row naming it is posted, and with no course of that name the
      handler stores the lead, writes no sales row and answers 401. */
  lemma NoCoursesPostedAsWritten(db: Db, u: UserResponse, row: LeadRow)
    requires row.course == "NO COURSES"
    requires forall k :: 0 <= k < 9 ==> Values(row)[k] != ""
    requires AddLeadGuard(db, UserSession(u), Some(ToRequest(row))) == 0
    requires NextId(db.leads, LeadKey) < TwoTo63
    requires forall c :: c in db.courses ==> c.name != "NO COURSES"
    ensures SendOutcomeFor(row, IsPlaceholderAsWritten(row.course)) == Posted(ToRequest(row))
    ensures var r := AddLeadOutcome(db, UserSession(u), Some(ToRequest(row)));
            r.0 == 401 && |r.1.leads| == |db.leads| + 1 && r.1.sales == db.sales
  {
    OrphanLeadWithoutCourse(db, UserSession(u), ToRequest(row));
  }

  /** With the select's own placeholder names, neither placeholder is ever
      posted. */
  lemma PlaceholdersNeverPosted(row: LeadRow)
    requires row.course == "NO COURSES" || row.course == "-- Select Course --"
    ensures SendOutcomeFor(row, IsPlaceholder(row.course)) == AlertSelectCourse
  {
  }

  /** The default source and status are values the store accepts, and the
      default author is the current user's email, which is what the handler
      requires of the session user. */
  lemma DefaultRowMeetsServerChecks(db: Db, u: UserResponse, row: LeadRow)
    requires u.email != ""
    requires row.author == DefaultRow(Some(u)).author
    requires row.source == DefaultRow(Some(u)).source && row.status == DefaultRow(Some(u)).status
    requires ParseFullDate(row.date).Some? && !HasKey(db.leads, LeadPhone, row.phone)
    ensures AddLeadGuard(db, UserSession(u), Some(ToRequest(row))) == 0
    ensures LeadSource(row.source) && LeadStatus(row.status)
  {
  }

  /** A row without an id requests the deletion of lead 0, which the
      handler reads as a primary key no lead has: nothing is deleted. */
  lemma DeleteWithoutIdRemovesNothing(db: Db, rawSelected: Lead -> bool)
    requires DbValid(db)
    ensures LeadsAfterDelete(db, LeadsKept(NatToString(0), rawSelected)) == db.leads
  {
    AtoiReadsRenderedId(0);
    forall l | l in db.leads ensures LeadsKept(NatToString(0), rawSelected)(l) {
      var i :| 0 <= i < |db.leads| && db.leads[i] == l;
      assert db.leads[i].id > 0;
    }
  }

  // ---------------------------------------------------------------------
  // The date column
  // ---------------------------------------------------------------------

  /** The index of the first 'T' in s, or -1 (String.prototype.indexOf). */
  function IndexOfT(s: string): (r: int)
    ensures -1 <= r < |s|
    ensures r >= 0 ==> s[r] == 'T' && forall k :: 0 <= k < r ==> s[k] != 'T'
    ensures r == -1 ==> forall k :: 0 <= k < |s| ==> s[k] != 'T'
  {
    if |s| == 0 then -1
    else if s[0] == 'T' then 0
    else
      var rest := IndexOfT(s[1..]);
      assert forall k :: 1 <= k < |s| ==> s[k] == s[1..][k - 1];
      if rest == -1 then -1 else rest + 1
  }

  /** `date.substring(0, date.indexOf("T"))`: the text before the first
      'T', and "" when there is none (substring reads -1 as 0). */
  function DateCell(date: string): (r: string)
    ensures IndexOfT(date) >= 0 ==> r == date[..IndexOfT(date)]
    ensures IndexOfT(date) == -1 ==> r == ""
  {
    var i := IndexOfT(date);
    if i < 0 then "" else date[..i]
  }

  /** A stored date as the listing receives it: midnight UTC in RFC 3339.
      The offset is "Z" because the database connection sets TimeZone=UTC
      (server/db/db.go:15); another session time zone would render the
      instant with that zone's offset. */
  function Timestamp(d: Date): string
    requires ValidDate(d)
  {
    FormatDate(d) + "T00:00:00Z"
  }

  lemma {:induction false} PadDigitsHasNoT(n: nat, width: nat)
    ensures forall k :: 0 <= k < width ==> PadDigits(n, width)[k] != 'T'
  {
    var s := PadDigits(n, width);
    forall k | 0 <= k < width ensures s[k] != 'T' {
      assert IsDigit(s[k]);
    }
  }

  /** A date entered in the date input and accepted by the handler is shown
      unchanged in the listing's date column. */
  lemma ListedDateIsEnteredDate(s: string)
    requires ParseFullDate(s).Some?
    ensures DateCell(Timestamp(ParseFullDate(s).value)) == s
  {
    var d := ParseFullDate(s).value;
    ParseThenFormat(s);
    var f := FormatDate(d);
    var t := Timestamp(d);
    PadDigitsHasNoT(d.year, 4);
    PadDigitsHasNoT(d.month, 2);
    PadDigitsHasNoT(d.day, 2);
    assert forall k :: 0 <= k < 10 ==> f[k] != 'T';
    assert t[10] == 'T';
    assert forall k :: 0 <= k < 10 ==> t[k] == f[k];
    assert IndexOfT(t) == 10;
    assert t[..10] == f;
  }
}
