/** The avatar service: recording a newly uploaded avatar against a user
    (removing the previous file) and resolving the path of a user's avatar.
    The avatar directory is the set of file names present in it; user lookup
    and update by email are the table operations of `UserEntity`. */
module AvatarService {
  import opened Wrappers
  import opened Http
  import opened Text
  import opened UserEntity

  /** The process environment the service reads. */
  datatype Env = Env(cwd: string, baseUrl: Option<string>)

  /** A template literal renders an unset variable as the word `undefined`. */
  function Interpolate(v: Option<string>): (r: string)
    ensures v.Some? ==> r == v.value
    ensures v.None? ==> r == "undefined"
  {
    match v
    case None => "undefined"
    case Some(s) => s
  }

  const AvatarsDir: string := "uploads/avatars"

  /** `join(cwd, 'uploads/avatars', name)`. */
  function AvatarPath(cwd: string, name: string): (p: string)
    ensures IsPrefix(cwd + "/uploads/avatars/", p) && EndsWith(p, name)
    ensures |p| == |cwd + "/uploads/avatars/"| + |name|
    ensures '/' !in name ==> LastPiece(p, '/') == name
  {
    var dir := cwd + "/" + AvatarsDir;
    var p := dir + "/" + name;
    assert p[..|cwd + "/uploads/avatars/"|] == cwd + "/uploads/avatars/";
    assert p[|p| - |name|..] == name;
    assert '/' !in name ==> LastPiece(p, '/') == name by {
      if '/' !in name {
        LastPieceOfConcat(dir, '/', name);
      }
    }
    p
  }

  /** The URL `updateUserAvatar` answers with: the base URL, then the avatars
      route, then the stored file name. */
  function AvatarUrl(env: Env, filename: string): (u: string)
    ensures IsPrefix(Interpolate(env.baseUrl) + "/avatars/", u) && EndsWith(u, filename)
    ensures |u| == |Interpolate(env.baseUrl) + "/avatars/"| + |filename|
    ensures '/' !in filename ==> LastPiece(u, '/') == filename
  {
    var base := Interpolate(env.baseUrl) + "/avatars";
    var u := base + "/" + filename;
    assert u[..|base| + 1] == base + "/";
    assert u[|u| - |filename|..] == filename;
    assert '/' !in filename ==> LastPiece(u, '/') == filename by {
      if '/' !in filename {
        LastPieceOfConcat(base, '/', filename);
      }
    }
    u
  }

  const AvatarMissing: string := "Avatar not found"
  const AvatarFileMissing: string := "Avatar file not found"

  /** The user table and avatar directory after an update, and its answer. */
  datatype AvatarUpdate = AvatarUpdate(table: UserTable, files: set<string>, result: Result<string, Failure>)

  /** Every avatar a user points at is a file in the directory, and no two
      users point at the same file. */
  predicate AvatarsOnDisk(t: UserTable, files: set<string>)
  {
    && (forall id :: id in t.rows && t.rows[id].avatar != "" ==> t.rows[id].avatar in files)
    && (forall a, b :: a in t.rows && b in t.rows && a != b && t.rows[a].avatar != ""
                       ==> t.rows[a].avatar != t.rows[b].avatar)
  }

  /** No user points at `name`. */
  predicate UnusedName(t: UserTable, name: string)
  {
    forall id :: id in t.rows ==> t.rows[id].avatar != name
  }

  /** `updateUserAvatar(email, file)` as written. `file` is the
      stored name of the uploaded file, or `None` when the request carried no
      file. The previous avatar is removed before `file.filename` is read, so
      a request without a file loses the old file and then fails on
      `undefined`, leaving the user's row pointing at the removed file. */
  function UpdateUserAvatarAsWritten(t: UserTable, files: set<string>, env: Env, email: string,
                                     file: Option<string>)
    : (out: AvatarUpdate)
    requires Valid(t)
    ensures Valid(out.table)
    ensures FindByEmail(t, email).None? ==> out == AvatarUpdate(t, files, Err(InternalServerError))
    ensures FindByEmail(t, email).Some? && file.None? ==>
      var prev := FindByEmail(t, email).value.avatar;
      && out.table == t && out.result == Err(InternalServerError)
      && out.files == (if prev != "" then files - {prev} else files)
    ensures FindByEmail(t, email).Some? && file.Some? ==>
      var prev := FindByEmail(t, email).value;
      var name := file.value;
      && out.result == Ok(AvatarUrl(env, name))
      && out.files == (if prev.avatar != "" then files - {prev.avatar} else files)
      && out.table.rows == t.rows[prev.id := prev.(avatar := name)]
      && out.table.nextId == t.nextId
  {
    match FindByEmail(t, email)
    case None => AvatarUpdate(t, files, Err(InternalServerError))
    case Some(u) =>
      var files' := if u.avatar != "" then files - {u.avatar} else files;
      match file
      case None => AvatarUpdate(t, files', Err(InternalServerError))
      case Some(name) => AvatarUpdate(SetAvatarByEmail(t, email, name), files', Ok(AvatarUrl(env, name)))
  }

  /** A request without a file, from a user who has an avatar, leaves that
      user pointing at a file that no longer exists. */
  lemma AsWrittenLosesAvatarFile(t: UserTable, files: set<string>, env: Env, email: string)
    requires Valid(t) && AvatarsOnDisk(t, files)
    requires FindByEmail(t, email).Some? && FindByEmail(t, email).value.avatar != ""
    ensures var out := UpdateUserAvatarAsWritten(t, files, env, email, None);
      out.result.Err? && !AvatarsOnDisk(out.table, out.files)
  {
  }

  /** `updateUserAvatar(email, file)` with the missing file refused before
      anything is removed. With a file present it behaves as written:
      the previous avatar, if any, is removed (a failed removal is ignored),
      only the avatar column of the user is updated, and the answer is the
      avatar URL. */
  function UpdateUserAvatar(t: UserTable, files: set<string>, env: Env, email: string, file: Option<string>)
    : (out: AvatarUpdate)
    requires Valid(t)
    ensures Valid(out.table)
    ensures FindByEmail(t, email).None? || file.None? ==> out == AvatarUpdate(t, files, Err(InternalServerError))
    ensures FindByEmail(t, email).Some? && file.Some? ==>
      var prev := FindByEmail(t, email).value;
      var name := file.value;
      && out.result == Ok(AvatarUrl(env, name))
      && out.files == (if prev.avatar != "" then files - {prev.avatar} else files)
      && out.table.rows == t.rows[prev.id := prev.(avatar := name)]
      && out.table.nextId == t.nextId
  {
    if file.None? then AvatarUpdate(t, files, Err(InternalServerError))
    else UpdateUserAvatarAsWritten(t, files, env, email, file)
  }

  /** The corrected update keeps every avatar on disk, provided the uploaded
      file is present and its name is not already some user's avatar. */
  lemma UpdateKeepsAvatarsOnDisk(t: UserTable, files: set<string>, env: Env, email: string,
                                                    file: Option<string>)
    requires Valid(t) && AvatarsOnDisk(t, files)
    requires file.Some? ==> file.value in files && UnusedName(t, file.value)
    ensures var out := UpdateUserAvatar(t, files, env, email, file);
      AvatarsOnDisk(out.table, out.files)
  {
  }

  /** `getAvatarPath(email)`. */
  function GetAvatarPath(t: UserTable, files: set<string>, cwd: string, email: string)
    : (r: Result<string, Failure>)
    requires Valid(t)
    ensures r.Ok? <==>
      FindByEmail(t, email).Some? && FindByEmail(t, email).value.avatar != ""
      && FindByEmail(t, email).value.avatar in files
    ensures r.Ok? ==> r.value == AvatarPath(cwd, FindByEmail(t, email).value.avatar)
    ensures r.Err? ==>
      r.error == NotFound(if FindByEmail(t, email).None? || FindByEmail(t, email).value.avatar == ""
                          then AvatarMissing else AvatarFileMissing)
  {
    match FindByEmail(t, email)
    case None => Err(NotFound(AvatarMissing))
    case Some(u) =>
      if u.avatar == "" then Err(NotFound(AvatarMissing))
      else if u.avatar !in files then Err(NotFound(AvatarFileMissing))
      else Ok(AvatarPath(cwd, u.avatar))
  }

  /** Recording a freshly stored file and then asking for the user's avatar
      yields that file's path. */
  lemma UpdateThenGetPath(t: UserTable, files: set<string>, env: Env, email: string, name: string)
    requires Valid(t)
    requires FindByEmail(t, email).Some?
    requires name != "" && UnusedName(t, name)
    ensures var out := UpdateUserAvatar(t, files + {name}, env, email, Some(name));
      GetAvatarPath(out.table, out.files, env.cwd, email) == Ok(AvatarPath(env.cwd, name))
  {
  }
}
