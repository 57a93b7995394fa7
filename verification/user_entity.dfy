/** The `User` entity and the table that persists it. The table is keyed by
    the store-generated id and, through the column's unique constraint, holds
    every email at most once. */
module UserEntity {
  import opened Wrappers

  /** A persisted user row: exactly these five columns. */
  datatype User = User(id: nat, email: string, username: string, password: string, avatar: string)

  /** A user built by the service but not saved yet: it has no id, because the
      id is generated by the store when the row is inserted. */
  datatype UserDraft = UserDraft(email: string, username: string, password: string, avatar: string)

  /** The serialised form of a user: the password column is excluded. */
  datatype PublicUser = PublicUser(id: nat, email: string, username: string, avatar: string)

  function Serialize(u: User): (p: PublicUser)
    ensures u == User(p.id, p.email, p.username, u.password, p.avatar)
  {
    PublicUser(u.id, u.email, u.username, u.avatar)
  }

  /** The serialised user carries no information about the password. */
  lemma SerializeIgnoresPassword(u: User, password: string)
    ensures Serialize(u.(password := password)) == Serialize(u)
  {
  }

  /** The user table: rows by id and the next id the store will hand out. */
  datatype UserTable = UserTable(rows: map<nat, User>, nextId: nat)

  /** Every stored email belongs to one row only. */
  predicate EmailsUnique(t: UserTable)
  {
    forall a, b :: a in t.rows && b in t.rows && a != b ==> t.rows[a].email != t.rows[b].email
  }

  /** The store's own bookkeeping: rows sit under their own id, and every id
      handed out so far is below `nextId`. */
  predicate IdsConsistent(t: UserTable)
  {
    forall id :: id in t.rows ==> id < t.nextId && t.rows[id].id == id
  }

  predicate Valid(t: UserTable)
  {
    IdsConsistent(t) && EmailsUnique(t)
  }

  predicate HasEmail(t: UserTable, email: string)
  {
    exists id :: id in t.rows && t.rows[id].email == email
  }

  /** The row with the smallest id at or above `from` holding `email`. */
  function FindFrom(t: UserTable, email: string, from: nat): (r: Option<User>)
    ensures r.Some? ==> r.value.id in t.rows && t.rows[r.value.id] == r.value
                        && r.value.email == email
    ensures r.None? && IdsConsistent(t)
            ==> forall id :: id in t.rows && from <= id ==> t.rows[id].email != email
    decreases t.nextId - from
  {
    if from >= t.nextId then None
    else if from in t.rows && t.rows[from].email == email && t.rows[from].id == from then
      Some(t.rows[from])
    else FindFrom(t, email, from + 1)
  }

  /** `findOne({ where: { email } })`: the user holding `email`, if any. */
  function FindByEmail(t: UserTable, email: string): (r: Option<User>)
    requires IdsConsistent(t)
    ensures r.Some? ==> r.value.id in t.rows && t.rows[r.value.id] == r.value
                        && r.value.email == email
    ensures r.None? <==> !HasEmail(t, email)
  {
    FindFrom(t, email, 0)
  }

  /** The failure a save reports, with the driver's error code when it has one. */
  datatype SaveError = SaveError(code: Option<string>)

  /** The PostgreSQL code for a violated unique constraint. */
  const UniqueViolation: string := "23505"

  /** `repository.save(draft)` on a new row. `fault` is a failure the database
      may report for reasons outside the model (connection loss, a concurrent
      transaction, ...); without one, the unique constraint on `email` is the
      only reason to refuse the row. */
  function Save(t: UserTable, draft: UserDraft, fault: Option<SaveError>)
    : (r: Result<(UserTable, User), SaveError>)
    requires Valid(t)
    ensures r.Ok? <==> fault.None? && !HasEmail(t, draft.email)
    ensures fault.None? && HasEmail(t, draft.email) ==> r == Err(SaveError(Some(UniqueViolation)))
    ensures fault.Some? ==> r == Err(fault.value)
    ensures r.Ok? ==>
      var (t', u) := r.value;
      && Valid(t')
      && u.id !in t.rows
      && t'.rows == t.rows[u.id := u]
      && u == User(u.id, draft.email, draft.username, draft.password, draft.avatar)
  {
    if fault.Some? then Err(fault.value)
    else if FindByEmail(t, draft.email).Some? then Err(SaveError(Some(UniqueViolation)))
    else
      var u := User(t.nextId, draft.email, draft.username, draft.password, draft.avatar);
      Ok((UserTable(t.rows[t.nextId := u], t.nextId + 1), u))
  }

  /** `updateUserByEmail(email, { avatar })`: the row holding `email` gets the
      new avatar; nothing else changes. */
  function SetAvatarByEmail(t: UserTable, email: string, avatar: string): (t': UserTable)
    requires Valid(t)
    ensures Valid(t')
    ensures t'.rows.Keys == t.rows.Keys && t'.nextId == t.nextId
    ensures forall id :: id in t.rows && t.rows[id].email != email ==> t'.rows[id] == t.rows[id]
    ensures forall id :: id in t.rows && t.rows[id].email == email ==> t'.rows[id] == t.rows[id].(avatar := avatar)
  {
    match FindByEmail(t, email)
    case None => t
    case Some(u) => UserTable(t.rows[u.id := u.(avatar := avatar)], t.nextId)
  }
}
