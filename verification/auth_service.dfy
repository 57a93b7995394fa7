/** The user service: the placeholder CRUD handlers and signup against the
    user table. Password hashing is the parameter `hash(password, cost)`. */
module AuthService {
  import opened Wrappers
  import opened Http
  import opened Text
  import opened UserEntity
  import opened Dtos

  /** The bcrypt cost factor used at signup. */
  const BcryptCost: nat := 12

  const EmailTaken: string := "Email already exists"

  // The placeholder handlers: none of them takes the user table, so none can
  // read or change it; each answers with a fixed message, three of them with
  // the route id written into it.

  const AddsLead: string := "This action adds a new auth"
  const AllLead: string := "This action returns all auth"
  const ReturnsLead: string := "This action returns a #"
  const UpdatesLead: string := "This action updates a #"
  const RemovesLead: string := "This action removes a #"
  const AuthTail: string := " auth"

  function Create(dto: CreateUserDto): string
  {
    AddsLead
  }

  /** The creation placeholder does not depend on the body it is given. */
  lemma CreateIgnoresBody(a: CreateUserDto, b: CreateUserDto)
    ensures Create(a) == Create(b)
  {
  }

  function FindAll(): string
  {
    AllLead
  }

  /** `msg` is `lead`, then a text that reads back as the integer `id`, then
      `tail`. */
  predicate Names(msg: string, lead: string, id: int, tail: string) {
    && |lead| + |tail| <= |msg|
    && IsPrefix(lead, msg)
    && EndsWith(msg, tail)
    && ParseInt(msg[|lead|..|msg| - |tail|]) == Some(id)
  }

  /** The message naming `id` between a fixed lead and a fixed tail. */
  function Mention(lead: string, id: int, tail: string): (msg: string)
    ensures Names(msg, lead, id, tail)
  {
    var msg := lead + IntToString(id) + tail;
    assert msg[..|lead|] == lead;
    assert msg[|msg| - |tail|..] == tail;
    assert msg[|lead|..|msg| - |tail|] == IntToString(id);
    msg
  }

  function FindOne(id: int): (msg: string)
    ensures Names(msg, ReturnsLead, id, AuthTail)
  {
    Mention(ReturnsLead, id, AuthTail)
  }

  function Update(id: int, dto: UpdateUserDto): (msg: string)
    ensures Names(msg, UpdatesLead, id, AuthTail)
  {
    Mention(UpdatesLead, id, AuthTail)
  }

  function Remove(id: int): (msg: string)
    ensures Names(msg, RemovesLead, id, AuthTail)
  {
    Mention(RemovesLead, id, AuthTail)
  }

  /** The id can be read back from each placeholder message. */
  lemma PlaceholderMessagesNameTheId(a: int, b: int, da: UpdateUserDto, db: UpdateUserDto)
    ensures FindOne(a) == FindOne(b) ==> a == b
    ensures Update(a, da) == Update(b, db) ==> a == b
    ensures Remove(a) == Remove(b) ==> a == b
  {
  }

  /** The five placeholder answers are told apart for every id and body:
      no answer of one handler is ever an answer of another. */
  lemma PlaceholderAnswersDiffer(c: CreateUserDto, i: int, j: int, k: int, d: UpdateUserDto)
    ensures Create(c) != FindAll() && Create(c) != FindOne(i)
    ensures Create(c) != Update(j, d) && Create(c) != Remove(k)
    ensures FindAll() != FindOne(i) && FindAll() != Update(j, d) && FindAll() != Remove(k)
    ensures FindOne(i) != Update(j, d) && FindOne(i) != Remove(k)
    ensures Update(j, d) != Remove(k)
  {
    // Position 12 names the action, 14 splits "returns" from "removes", and
    // 21 splits "returns all" from "returns a #".
    var one, upd, rem := FindOne(i), Update(j, d), Remove(k);
    LeadChar(ReturnsLead, one, 12);
    LeadChar(ReturnsLead, one, 14);
    LeadChar(ReturnsLead, one, 21);
    LeadChar(UpdatesLead, upd, 12);
    LeadChar(RemovesLead, rem, 12);
    LeadChar(RemovesLead, rem, 14);
  }

  lemma LeadChar(lead: string, msg: string, n: nat)
    requires IsPrefix(lead, msg) && n < |lead|
    ensures msg[n] == lead[n]
  {
    assert msg[..|lead|][n] == msg[n];
  }

  /** The first half of signup: refuse a known email, otherwise build the row
      to save from the email, username and hashed password only. */
  function SignupCheck(t: UserTable, dto: CreateUserDto, hash: (string, nat) -> string)
    : (r: Result<UserDraft, Failure>)
    requires Valid(t)
    ensures r.Err? <==> HasEmail(t, dto.email)
    ensures r.Err? ==> r.error == Conflict(EmailTaken)
    ensures r.Ok? ==> r.value == UserDraft(dto.email, dto.username, hash(dto.password, BcryptCost), "")
  {
    if FindByEmail(t, dto.email).Some? then Err(Conflict(EmailTaken))
    else Ok(UserDraft(dto.email, dto.username, hash(dto.password, BcryptCost), ""))
  }

  /** The second half of signup: save the row and translate a save failure,
      a unique violation into a conflict and anything else into a server
      error. A failed save leaves the table as it was. */
  function SignupCommit(t: UserTable, draft: UserDraft, fault: Option<SaveError>)
    : (out: (UserTable, Result<User, Failure>))
    requires Valid(t)
    ensures Valid(out.0)
    ensures out.1.Ok? <==> fault.None? && !HasEmail(t, draft.email)
    ensures out.1.Err? ==> out.0 == t
    ensures out.1.Err? ==>
      out.1.error == (if fault.None? || fault.value.code == Some(UniqueViolation)
                      then Conflict(EmailTaken) else InternalServerError)
    ensures out.1.Ok? ==>
      var u := out.1.value;
      && u.id !in t.rows
      && out.0.rows == t.rows[u.id := u]
      && u.email == draft.email && u.username == draft.username
      && u.password == draft.password && u.avatar == draft.avatar
  {
    match Save(t, draft, fault)
    case Ok((t', u)) => (t', Ok(u))
    case Err(e) =>
      if e.code == Some(UniqueViolation) then (t, Err(Conflict(EmailTaken)))
      else (t, Err(InternalServerError))
  }

  /** `signup(dto)`: the table after the call and what the call returns. */
  function Signup(t: UserTable, dto: CreateUserDto, hash: (string, nat) -> string, fault: Option<SaveError>)
    : (out: (UserTable, Result<User, Failure>))
    requires Valid(t)
    ensures Valid(out.0)
    ensures out.1.Err? ==> out.0 == t
    ensures HasEmail(t, dto.email) ==> out.1 == Err(Conflict(EmailTaken))
    ensures !HasEmail(t, dto.email) && fault.Some? ==>
      out.1 == Err(if fault.value.code == Some(UniqueViolation) then Conflict(EmailTaken) else InternalServerError)
    ensures out.1.Ok? <==> !HasEmail(t, dto.email) && fault.None?
    ensures out.1.Ok? ==>
      var u := out.1.value;
      && u.id !in t.rows
      && out.0.rows == t.rows[u.id := u]
      && u == User(u.id, dto.email, dto.username, hash(dto.password, BcryptCost), "")
  {
    match SignupCheck(t, dto, hash)
    case Err(e) => (t, Err(e))
    case Ok(draft) => SignupCommit(t, draft, fault)
  }

  /** Signup reads only the email, username and password of the body. */
  lemma SignupIgnoresProfileFields(t: UserTable, dto: CreateUserDto, country: string, region: string,
                                   avatar: Option<string>, hash: (string, nat) -> string, fault: Option<SaveError>)
    requires Valid(t)
    ensures Signup(t, dto.(country := country, region := region, avatar := avatar), hash, fault)
         == Signup(t, dto, hash, fault)
  {
  }

  /** Two signups for one email that both pass the check before either saves:
      the first save succeeds when the email is new, and the second then
      observes the unique constraint and reports a conflict. */
  lemma RacingSignups(t: UserTable, a: CreateUserDto, b: CreateUserDto,
                                         hash: (string, nat) -> string)
    requires Valid(t)
    requires a.email == b.email
    requires !HasEmail(t, a.email)
    ensures
      var da := SignupCheck(t, a, hash);
      var db := SignupCheck(t, b, hash);
      && da.Ok? && db.Ok?
      && var (t1, ra) := SignupCommit(t, da.value, None);
         var (t2, rb) := SignupCommit(t1, db.value, None);
         && ra.Ok? && ra.value.email == a.email
         && rb == Err(Conflict(EmailTaken)) && t2 == t1
  {
    var da := SignupCheck(t, a, hash);
    var db := SignupCheck(t, b, hash);
    var (t1, ra) := SignupCommit(t, da.value, None);
    assert ra.value.id in t1.rows && t1.rows[ra.value.id].email == b.email;
    assert HasEmail(t1, db.value.email);
  }

  /** The signup endpoint: the global validation pipe checks the body, the
      service runs, and the returned user goes out serialised without its
      password. */
  function SignupEndpoint(t: UserTable, dto: CreateUserDto, isEmail: string -> bool,
                          hash: (string, nat) -> string, fault: Option<SaveError>)
    : (out: (UserTable, Result<PublicUser, Failure>))
    requires Valid(t)
    ensures Valid(out.0)
    ensures !ValidCreate(dto, isEmail) ==> out == (t, Err(BadRequest))
    ensures out.1.Ok? <==> ValidCreate(dto, isEmail) && !HasEmail(t, dto.email) && fault.None?
    ensures out.1.Err? ==> out.0 == t
    ensures ValidCreate(dto, isEmail) && HasEmail(t, dto.email) ==> out.1 == Err(Conflict(EmailTaken))
    ensures ValidCreate(dto, isEmail) && !HasEmail(t, dto.email) && fault.Some? ==>
      out.1 == Err(if fault.value.code == Some(UniqueViolation) then Conflict(EmailTaken) else InternalServerError)
    ensures out.1.Ok? ==>
      var p := out.1.value;
      && p.id !in t.rows
      && out.0.rows == t.rows[p.id := User(p.id, dto.email, dto.username, hash(dto.password, BcryptCost), "")]
      && Serialize(out.0.rows[p.id]) == p
      && p == PublicUser(p.id, dto.email, dto.username, "")
  {
    if !ValidCreate(dto, isEmail) then (t, Err(BadRequest))
    else
      var (t', r) := Signup(t, dto, hash, fault);
      match r
      case Ok(u) => (t', Ok(Serialize(u)))
      case Err(e) => (t', Err(e))
  }

  /** The signup response is the same whatever the password hashes to: the
      hash never leaves the service. */
  lemma SignupResponseHidesHash(t: UserTable, dto: CreateUserDto, isEmail: string -> bool,
                                h1: (string, nat) -> string, h2: (string, nat) -> string,
                                fault: Option<SaveError>)
    requires Valid(t)
    ensures SignupEndpoint(t, dto, isEmail, h1, fault).1 == SignupEndpoint(t, dto, isEmail, h2, fault).1
  {
  }
}
