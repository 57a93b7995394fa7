/** The request bodies the auth endpoints accept, and the constraints the
    global validation pipe checks on them before a handler runs. */
module Dtos {
  import opened Wrappers

  /** The signup body. `avatar` may be absent. */
  datatype CreateUserDto = CreateUserDto(
    email: string,
    username: string,
    password: string,
    country: string,
    region: string,
    avatar: Option<string>)

  /** The partial update body: every field may be absent. */
  datatype UpdateUserDto = UpdateUserDto(
    username: Option<string>,
    password: Option<string>,
    avatar: Option<string>)

  const SignupMinPasswordLength: nat := 8
  const UpdateMinPasswordLength: nat := 6

  predicate IsNotEmpty(s: string) {
    s != ""
  }

  predicate MinLength(s: string, n: nat) {
    |s| >= n
  }

  /** An optional field passes when it is absent or when the present value
      satisfies the field's constraint. */
  predicate Optional(v: Option<string>, constraint: string -> bool) {
    v.None? || constraint(v.value)
  }

  /** The signup body passes validation. Whether a string is an email address
      is decided by `isEmail`, which the model leaves abstract. */
  predicate ValidCreate(dto: CreateUserDto, isEmail: string -> bool)
    ensures ValidCreate(dto, isEmail) ==>
      ValidUpdate(UpdateUserDto(Some(dto.username), Some(dto.password), dto.avatar))
  {
    && isEmail(dto.email)
    && IsNotEmpty(dto.username)
    && IsNotEmpty(dto.password) && MinLength(dto.password, SignupMinPasswordLength)
    && IsNotEmpty(dto.country)
    && IsNotEmpty(dto.region)
  }

  /** The update body passes validation. */
  predicate ValidUpdate(dto: UpdateUserDto)
    ensures dto.password.None? ==> ValidUpdate(dto)
    ensures dto.password.Some? && |dto.password.value| < UpdateMinPasswordLength ==> !ValidUpdate(dto)
  {
    Optional(dto.password, pw => MinLength(pw, UpdateMinPasswordLength))
  }

  /** The avatar of a signup body never decides whether it is valid. */
  lemma CreateAvatarIsFree(dto: CreateUserDto, isEmail: string -> bool, avatar: Option<string>)
    ensures ValidCreate(dto.(avatar := avatar), isEmail) == ValidCreate(dto, isEmail)
  {
  }

  /** A signup body is valid exactly when its password has at least eight
      characters and its other required fields are non-empty (email aside). */
  lemma ValidCreateMeaning(dto: CreateUserDto, isEmail: string -> bool)
    ensures ValidCreate(dto, isEmail)
        <==> isEmail(dto.email) && |dto.password| >= 8
             && dto.username != [] && dto.country != [] && dto.region != []
  {
  }

  /** An update body with no fields at all is valid. */
  lemma EmptyUpdateIsValid()
    ensures ValidUpdate(UpdateUserDto(None, None, None))
  {
  }

  /** An update body is valid exactly when it carries no password or one of at
      least six characters; username and avatar are unconstrained. */
  lemma ValidUpdateMeaning(dto: UpdateUserDto)
    ensures ValidUpdate(dto) <==> dto.password.None? || |dto.password.value| >= 6
  {
  }

  /** A six- or seven-character password is accepted by an update but refused
      at signup. */
  lemma ShortPasswordOnlyForUpdate(pw: string, dto: CreateUserDto, isEmail: string -> bool)
    requires 6 <= |pw| < 8
    ensures ValidUpdate(UpdateUserDto(None, Some(pw), None))
    ensures !ValidCreate(dto.(password := pw), isEmail)
  {
  }
}
