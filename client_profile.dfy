/** The profile page: which profile it shows, whether it is the viewer's
    own (which alone offers the avatar and password buttons), and the
    password change it posts. */
module ClientProfile {
  import opened Common
  import opened Models
  import opened Http
  import UserHandlers
  import AuthHandlers

  // ---------------------------------------------------------------------
  // Numbers in the address
  // ---------------------------------------------------------------------

  /** The length of the run of digits at the start of s. */
  function DigitRun(s: string): (k: nat)
    ensures k <= |s| && AllDigits(s[..k])
    ensures k < |s| ==> !IsDigit(s[k])
  {
    if |s| == 0 || !IsDigit(s[0]) then 0
    else
      var k := 1 + DigitRun(s[1..]);
      assert s[..k] == [s[0]] + s[1..][..k - 1];
      k
  }

  /** JavaScript's parseInt(s): an optional sign and the digits that follow
      it, read as a decimal; None stands for NaN, when no digit follows. */
  function ParseInt(s: string): (r: Option<int>)
  {
    var signed := |s| > 0 && (s[0] == '-' || s[0] == '+');
    var body := if signed then s[1..] else s;
    var k := DigitRun(body);
    if k == 0 then None
    else if signed && s[0] == '-' then Some(-(DecimalValue(body[..k]) as int))
    else Some(DecimalValue(body[..k]))
  }

  /** The text a number takes in a template string: "NaN" for NaN. */
  function RenderNumber(r: Option<int>): (s: string)
    ensures r.Some? && r.value >= 0 ==> s == NatToString(r.value)
  {
    match r
    case None => "NaN"
    case Some(n) => if n >= 0 then NatToString(n) else "-" + NatToString(-n)
  }

  /** A number read from an address is the number, whatever text follows its digits. */
  lemma ParseIntReadsDigits(digits: string, rest: string)
    requires |digits| > 0 && AllDigits(digits)
    requires rest == [] || !IsDigit(rest[0])
    ensures ParseInt(digits + rest) == Some(DecimalValue(digits) as int)
  {
    var s := digits + rest;
    assert s[0] == digits[0];
    DigitRunOfDigits(digits, rest);
    assert s[..|digits|] == digits;
  }

  lemma {:induction false} DigitRunOfDigits(digits: string, rest: string)
    requires AllDigits(digits)
    requires rest == [] || !IsDigit(rest[0])
    ensures DigitRun(digits + rest) == |digits|
  {
    if |digits| > 0 {
      assert (digits + rest)[1..] == digits[1..] + rest;
      DigitRunOfDigits(digits[1..], rest);
    } else {
      assert digits + rest == rest;
    }
  }

  /** A leading zero adds nothing to a decimal value. */
  lemma {:induction false} LeadingZeroValue(s: string)
    requires AllDigits(s)
    ensures AllDigits("0" + s) && DecimalValue("0" + s) == DecimalValue(s)
  {
    var t := "0" + s;
    if |s| > 0 {
      assert t[..|t| - 1] == "0" + s[..|s| - 1];
      LeadingZeroValue(s[..|s| - 1]);
    }
  }

  // ---------------------------------------------------------------------
  // Which profile is shown
  // ---------------------------------------------------------------------

  /** The page shows the viewer's own profile, without asking the server,
      when the address has no id, no one is logged in, or the id is the
      current user's id as String() renders it ("undefined" for no user). */
  predicate ShowsOwn(profileId: string, currentUser: Option<UserResponse>, isLoggedIn: bool)
  {
    profileId == "" || !isLoggedIn ||
    profileId == (if currentUser.Some? then NatToString(currentUser.value.id) else "undefined")
  }

  /** The profile shown and the ownership flag after the page's effect:
      the current user when ShowsOwn, otherwise the fetched profile, or the
      previous state when the fetch resolved to null. */
  function Resolved(profileId: string, currentUser: Option<UserResponse>, isLoggedIn: bool,
                    fetched: Option<UserResponse>, profile: Option<UserResponse>, own: bool)
    : (r: (Option<UserResponse>, bool))
    ensures own ==> (!r.1 <==> !ShowsOwn(profileId, currentUser, isLoggedIn) && fetched.Some?)
    ensures own && !r.1 ==> r.0 == fetched
  {
    if ShowsOwn(profileId, currentUser, isLoggedIn) then (currentUser, true)
    else if fetched.Some? then (fetched, false)
    else (profile, own)
  }

  /** getUserProfile(parseInt(id)): the path it requests, and the body of
      the reply it resolves to (null unless the reply is ok). */
  function FetchedProfile(db: Db, profileId: string): Option<UserResponse>
  {
    var r := UserHandlers.Profile(db, RenderNumber(ParseInt(profileId)));
    if r.0 == 200 then r.1 else None
  }

  class ProfileView {
    var profile: Option<UserResponse>
    var ownProfile: bool
    var email: string
    var showPassModal: bool

    /** The page mounts with no profile, as its own, and the modal closed. */
    constructor ()
      ensures profile.None? && ownProfile && email == "" && !showPassModal
    {
      profile := None;
      ownProfile := true;
      email := "";
      showPassModal := false;
    }

    /** Nothing but a loading notice is shown until a profile is set. */
    predicate ShowsLoading()
      reads this
    {
      profile.None?
    }

    /** The avatar and password buttons appear on one's own profile only. */
    predicate OffersChanges()
      reads this
    {
      profile.Some? && ownProfile
    }

    /** The first effect, with what the fetch resolved to (used only when
        the page asks the server). */
    method ResolveProfile(profileId: string, currentUser: Option<UserResponse>, isLoggedIn: bool, fetched: Option<UserResponse>)
      modifies this
      ensures (profile, ownProfile) == Resolved(profileId, currentUser, isLoggedIn, fetched, old(profile), old(ownProfile))
      ensures email == old(email) && showPassModal == old(showPassModal)
    {
      if profileId == "" || !isLoggedIn ||
         profileId == (if currentUser.Some? then NatToString(currentUser.value.id) else "undefined") {
        profile := currentUser;
        ownProfile := true;
      } else if fetched.Some? {
        profile := fetched;
        ownProfile := false;
      }
    }

    /** The second effect: the email field mirrors the profile shown. */
    method MirrorEmail()
      modifies this
      ensures profile.Some? ==> email == profile.value.email
      ensures profile.None? ==> email == old(email)
      ensures profile == old(profile) && ownProfile == old(ownProfile) && showPassModal == old(showPassModal)
    {
      if profile.Some? {
        email := profile.value.email;
      }
    }

    /** The "Change password" button. */
    method OpenPasswordModal()
      modifies this
      requires OffersChanges()
      ensures showPassModal
      ensures profile == old(profile) && ownProfile == old(ownProfile) && email == old(email)
    {
      showPassModal := true;
    }

    /** handlePassChange: the modal closes first, then the two passwords
        are posted under the names the password handler binds. */
    method SubmitPasswords(oldPass: string, newPass: string) returns (body: AuthHandlers.PasswordChangeRequest)
      modifies this
      ensures !showPassModal
      ensures body == AuthHandlers.PasswordChangeRequest(oldPass, newPass)
      ensures profile == old(profile) && ownProfile == old(ownProfile) && email == old(email)
    {
      showPassModal := false;
      body := AuthHandlers.PasswordChangeRequest(oldPass, newPass);
    }
  }

  /** Opening a profile address: the page mounts, resolves the profile
      (asking the server only when it is not the viewer's own) and mirrors
      the email. */
  method OpenProfile(store: Store, profileId: string, currentUser: Option<UserResponse>, isLoggedIn: bool)
    returns (view: ProfileView)
    ensures fresh(view)
    ensures (view.profile, view.ownProfile) ==
            Resolved(profileId, currentUser, isLoggedIn, FetchedProfile(store.db, profileId), None, true)
    ensures view.profile.Some? ==> view.email == view.profile.value.email
  {
    view := new ProfileView();
    var fetched := None;
    if !ShowsOwn(profileId, currentUser, isLoggedIn) {
      var ctx := new Context();
      var body := UserHandlers.GetProfile(store, ctx, RenderNumber(ParseInt(profileId)));
      fetched := if ctx.status == Some(200) then body else None;
    }
    view.ResolveProfile(profileId, currentUser, isLoggedIn, fetched);
    view.MirrorEmail();
  }

  // ---------------------------------------------------------------------
  // Properties across the page and the profile handler
  // ---------------------------------------------------------------------

  /** A logged-in viewer opening another stored user's address sees that
      user's profile, as someone else's. */
  lemma OthersProfileShown(db: Db, u: User, viewer: UserResponse)
    requires DbValid(db) && u in db.users && u.id != viewer.id
    ensures Resolved(NatToString(u.id), Some(viewer), true, FetchedProfile(db, NatToString(u.id)), None, true)
            == (Some(ToResponse(u)), false)
  {
    var s := NatToString(u.id);
    ParseIntReadsDigits(s, []);
    assert s + [] == s;
    UserHandlers.ProfileOfStored(db, u);
  }

  /** Without a session the page never asks the server: it shows no profile
      and stays on the loading notice. */
  lemma LoggedOutShowsLoading(profileId: string, fetched: Option<UserResponse>)
    ensures Resolved(profileId, None, false, fetched, None, true) == (None, true)
  {
  }

  /** An id the server has no user for still resolves to a profile: the
      zero projection, with an empty email and names, shown as another's. */
  lemma UnknownIdShowsEmptyProfile(db: Db, profileId: string, viewer: UserResponse)
    requires profileId != NatToString(viewer.id) && profileId != ""
    requires |profileId| > 0 && AllDigits(profileId) && DecimalValue(profileId) < TwoTo63
    requires forall v :: v in db.users ==> v.id != DecimalValue(profileId)
    ensures Resolved(profileId, Some(viewer), true, FetchedProfile(db, profileId), None, true)
            == (Some(ToResponse(ZeroUser)), false)
  {
    ParseIntReadsDigits(profileId, []);
    assert profileId + [] == profileId;
    var n := DecimalValue(profileId);
    AtoiReadsRenderedId(n);
    UserHandlers.ProfileOfUnknown(db, NatToString(n));
  }

  /** An address naming the viewer's own id with a leading zero is not
      recognised as the viewer's: the page fetches the viewer's own row
      and shows it without the avatar and password buttons. */
  lemma LeadingZeroHidesOwnership(db: Db, me: User)
    requires DbValid(db) && me in db.users
    ensures var id := "0" + NatToString(me.id);
            Resolved(id, Some(ToResponse(me)), true, FetchedProfile(db, id), None, true)
            == (Some(ToResponse(me)), false)
  {
    var s := NatToString(me.id);
    var id := "0" + s;
    LeadingZeroValue(s);
    ParseIntReadsDigits(id, []);
    assert id + [] == id;
    assert |id| > 1;
    UserHandlers.ProfileOfStored(db, me);
  }
}
