/** The Google OAuth strategy's `validate` step: it checks the shape of the
    profile Google returned and projects it onto the fields the application
    keeps, taking the name from the email's local part when the profile has
    no display name. */
module GoogleStrategy {
  import opened Wrappers
  import opened Text

  /** One entry of the profile's `emails` list. */
  datatype ProfileEmail = ProfileEmail(value: Option<string>)

  /** The profile fields `validate` reads; any of them may be missing. */
  datatype Profile = Profile(
    id: Option<string>,
    displayName: Option<string>,
    emails: Option<seq<Option<ProfileEmail>>>)

  /** What `validate` hands on for a well-formed profile. */
  datatype GoogleUser = GoogleUser(
    googleId: string,
    email: string,
    name: string,
    accessToken: string,
    refreshToken: string)

  const InvalidProfile: string := "Invalid Google profile structure"

  /** A JavaScript string that is truthy: present and non-empty. */
  predicate Truthy(v: Option<string>) {
    v.Some? && v.value != ""
  }

  /** `profile.emails?.[0]?.value`. */
  function FirstEmail(p: Profile): Option<string>
  {
    match p.emails
    case None => None
    case Some(list) =>
      if |list| == 0 || list[0].None? then None else list[0].value.value
  }

  /** `validate(req, accessToken, refreshToken, profile)`. */
  function Validate(accessToken: string, refreshToken: string, profile: Option<Profile>)
    : (r: Result<GoogleUser, string>)
    ensures r.Ok? <==> profile.Some? && Truthy(profile.value.id) && Truthy(FirstEmail(profile.value))
    ensures r.Err? ==> r.error == InvalidProfile
    ensures r.Ok? ==>
      var p := profile.value;
      var u := r.value;
      && u.googleId == p.id.value
      && u.email == FirstEmail(p).value
      && u.accessToken == accessToken
      && u.refreshToken == refreshToken
      && (Truthy(p.displayName) ==> u.name == p.displayName.value)
      && (!Truthy(p.displayName) ==>
            IsPrefix(u.name, u.email) && '@' !in u.name
            && (|u.name| < |u.email| ==> u.email[|u.name|] == '@'))
  {
    if profile.None? || !Truthy(profile.value.id) || !Truthy(FirstEmail(profile.value)) then
      Err(InvalidProfile)
    else
      var p := profile.value;
      var email := FirstEmail(p).value;
      FirstPiece(email, '@');
      var name := if Truthy(p.displayName) then p.displayName.value else Split(email, '@')[0];
      Ok(GoogleUser(p.id.value, email, name, accessToken, refreshToken))
  }

  /** Only the first email of the profile is looked at. */
  lemma OnlyFirstEmailCounts(accessToken: string, refreshToken: string, p: Profile,
                             first: Option<ProfileEmail>, rest1: seq<Option<ProfileEmail>>,
                             rest2: seq<Option<ProfileEmail>>)
    ensures Validate(accessToken, refreshToken, Some(p.(emails := Some([first] + rest1))))
         == Validate(accessToken, refreshToken, Some(p.(emails := Some([first] + rest2))))
  {
  }

  /** Without a display name, `local@domain` is named `local`. */
  lemma NameFromLocalPart(accessToken: string, refreshToken: string, id: string,
                                             local: string, domain: string)
    requires id != "" && '@' !in local
    ensures
      var email := local + "@" + domain;
      var r := Validate(accessToken, refreshToken,
                        Some(Profile(Some(id), None, Some([Some(ProfileEmail(Some(email)))]))));
      r.Ok? && r.value.name == local && r.value.email == email
  {
    var pieces := [local] + Split(domain, '@');
    assert pieces[1..] == Split(domain, '@');
    assert Join(pieces, '@') == local + "@" + domain;
    SplitJoin(pieces, '@');
  }
}
