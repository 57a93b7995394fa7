/** The avatar routes: uploading passes the guard, the upload filter and size
    limit, stores the file under its generated name and records it; fetching
    passes the guard and sends the file with a content type chosen from its
    extension. */
module AvatarController {
  import opened Wrappers
  import opened Http
  import opened Text
  import opened UserEntity
  import opened AuthGuard
  import opened AvatarConfig
  import opened AvatarService

  const Png: string := "image/png"
  const Jpeg: string := "image/jpeg"
  const Gif: string := "image/gif"

  /** The content type for a lower-cased extension; unknown ones fall back to
      JPEG. */
  function MimeOfExtension(ext: string): (m: string)
    ensures m == Png <==> ext == "png"
    ensures m == Gif <==> ext == "gif"
    ensures m == Jpeg <==> ext != "png" && ext != "gif"
  {
    if ext == "png" then Png
    else if ext == "jpg" || ext == "jpeg" then Jpeg
    else if ext == "gif" then Gif
    else Jpeg
  }

  /** `getMimeType(filename)`: the text after the last dot (the whole name
      when there is no dot), lower-cased; an absent name counts as the empty
      extension. */
  function MimeType(filename: Option<string>): (m: string)
    ensures m in {Png, Jpeg, Gif}
    ensures filename.None? ==> m == Jpeg
  {
    match filename
    case None => MimeOfExtension("")
    case Some(f) => MimeOfExtension(ToLower(LastPiece(f, '.')))
  }

  /** A name ending in `.x`, with no dot in `x`, is typed by `x` alone. */
  lemma MimeTypeByExtension(stem: string, x: string)
    requires '.' !in x
    ensures MimeType(Some(stem + "." + x)) == MimeOfExtension(ToLower(x))
  {
    LastPieceOfConcat(stem, '.', x);
  }

  /** A name without a dot is matched whole. */
  lemma MimeTypeWithoutDot(f: string)
    requires '.' !in f
    ensures MimeType(Some(f)) == MimeOfExtension(ToLower(f))
  {
    assert Split(f, '.') == [f];
  }

  /** Upper-case extensions are recognised. */
  lemma UpperCaseExtension()
    ensures MimeType(Some("PHOTO.PNG")) == Png
  {
    MimeTypeByExtension("PHOTO", "PNG");
    assert "PHOTO" + "." + "PNG" == "PHOTO.PNG";
    assert ToLower("PNG") == [LowerChar('P')] + ToLower("NG");
    assert ToLower("NG") == [LowerChar('N')] + ToLower("G");
    assert ToLower("G") == [LowerChar('G')] + ToLower("");
  }

  /** Only the text after the last dot counts. */
  lemma LastExtensionCounts()
    ensures MimeType(Some("a.png.gif")) == Gif
  {
    MimeTypeByExtension("a.png", "gif");
    assert "a.png" + "." + "gif" == "a.png.gif";
    assert ToLower("gif") == "gif";
  }

  /** What the fetch route sends: the file with its content type, or the
      404 body. */
  datatype AvatarResponse = SendFile(path: string, contentType: string) | NotFoundBody(message: string)

  /** The body of the fetch route once the guard has let the request in:
      both ways of not finding the avatar give the same 404 body. */
  function GetAvatar(t: UserTable, files: set<string>, cwd: string, email: string): (resp: AvatarResponse)
    requires Valid(t)
    ensures resp.SendFile? <==> GetAvatarPath(t, files, cwd, email).Ok?
    ensures resp.SendFile? ==>
      resp.path == GetAvatarPath(t, files, cwd, email).value
      && resp.contentType == MimeType(Some(resp.path))
    ensures resp.NotFoundBody? ==> resp.message == AvatarMissing
  {
    match GetAvatarPath(t, files, cwd, email)
    case Ok(path) => SendFile(path, MimeType(Some(path)))
    case Err(_) => NotFoundBody(AvatarMissing)
  }

  /** `GET profile/avatar`: the guard, then the handler with the token's email. */
  function GetAvatarRoute(t: UserTable, files: set<string>, cwd: string, req: Request,
                          verify: string -> Option<Claims>)
    : (r: Result<AvatarResponse, Failure>)
    requires Valid(t)
    ensures r.Err? <==> CanActivate(req, verify).Err?
    ensures r.Err? ==> r.error == CanActivate(req, verify).error
    ensures r.Ok? ==>
      var claims := CanActivate(req, verify).value.1.user;
      claims.Some? && r.value == GetAvatar(t, files, cwd, claims.value.email)
  {
    match CanActivate(req, verify)
    case Err(e) => Err(e)
    case Ok((_, req')) => Ok(GetAvatar(t, files, cwd, req'.user.value.email))
  }

  /** The uploaded file as the upload library hands it to the filter: the
      client's file name, the mimetype the library reports, and the size. */
  datatype UploadedFile = UploadedFile(originalName: string, mimetype: string, size: nat)

  datatype UploadResponse = UploadResponse(message: string, avatarUrl: string)

  datatype UploadOutcome = UploadOutcome(table: UserTable, files: set<string>, result: Result<UploadResponse, Failure>)

  const UploadDone: string := "Avatar uploaded successfully"

  /** `POST profile/avatar`: the guard, then the upload filter and size limit,
      then the file is stored under its generated name and recorded against
      the token's email. `now` and `rnd` are the clock reading and the rounded
      random number of the name; `extname` is the extension function. */
  function UploadAvatar(t: UserTable, files: set<string>, env: Env, req: Request,
                        verify: string -> Option<Claims>, upload: Option<UploadedFile>,
                        now: nat, rnd: nat, extname: string -> string)
    : (out: UploadOutcome)
    requires Valid(t)
    ensures Valid(out.table)
    ensures CanActivate(req, verify).Err? ==>
      out == UploadOutcome(t, files, Err(CanActivate(req, verify).error))
    ensures upload.Some? && !FileFilter(upload.value.mimetype).accept ==>
      out.table == t && out.files == files
    ensures upload.Some? && !WithinSizeLimit(upload.value.size) ==>
      out.table == t && out.files == files && out.result.Err?
    ensures CanActivate(req, verify).Ok? && upload.None? ==>
      out == UploadOutcome(t, files, Err(InternalServerError))
    ensures CanActivate(req, verify).Ok? && upload.Some? && !FileFilter(upload.value.mimetype).accept ==>
      out.result == Err(FileRejected(ImageOnly))
    ensures CanActivate(req, verify).Ok? && upload.Some? && FileFilter(upload.value.mimetype).accept
            && !WithinSizeLimit(upload.value.size) ==>
      out.result == Err(PayloadTooLarge)
    ensures out.result.Err? ==> out.table == t
    ensures CanActivate(req, verify).Ok? && upload.Some? && FileFilter(upload.value.mimetype).accept
            && WithinSizeLimit(upload.value.size)
            && FindByEmail(t, CanActivate(req, verify).value.1.user.value.email).None? ==>
      var email := CanActivate(req, verify).value.1.user.value.email;
      var name := StoredFilename(email, now, rnd, extname(upload.value.originalName));
      out == UploadOutcome(t, files + {name}, Err(InternalServerError))
    ensures out.result.Ok? <==>
      && CanActivate(req, verify).Ok?
      && upload.Some? && FileFilter(upload.value.mimetype).accept
      && WithinSizeLimit(upload.value.size)
      && FindByEmail(t, CanActivate(req, verify).value.1.user.value.email).Some?
    ensures out.result.Ok? ==>
      var email := CanActivate(req, verify).value.1.user.value.email;
      var name := StoredFilename(email, now, rnd, extname(upload.value.originalName));
      var prev := FindByEmail(t, email).value;
      && out.result.value == UploadResponse(UploadDone, AvatarUrl(env, name))
      && out.table.rows == t.rows[prev.id := prev.(avatar := name)]
      && out.files == (if prev.avatar != "" then (files + {name}) - {prev.avatar} else files + {name})
  {
    match CanActivate(req, verify)
    case Err(e) => UploadOutcome(t, files, Err(e))
    case Ok((_, req')) =>
      var email := req'.user.value.email;
      match upload
      case None =>
        var u := UpdateUserAvatar(t, files, env, email, None);
        UploadOutcome(u.table, u.files, Err(u.result.error))
      case Some(f) =>
        var d := FileFilter(f.mimetype);
        if !d.accept then UploadOutcome(t, files, Err(FileRejected(d.error.value)))
        else if !WithinSizeLimit(f.size) then UploadOutcome(t, files, Err(PayloadTooLarge))
        else
          var name := StoredFilename(email, now, rnd, extname(f.originalName));
          var u := UpdateUserAvatar(t, files + {name}, env, email, Some(name));
          match u.result
          case Ok(url) => UploadOutcome(u.table, u.files, Ok(UploadResponse(UploadDone, url)))
          case Err(e) => UploadOutcome(u.table, u.files, Err(e))
  }

  /** An accepted upload stores the file and then records it with
      `updateUserAvatar`. */
  lemma UploadGoesThroughUpdate(t: UserTable, files: set<string>, env: Env, req: Request,
                                verify: string -> Option<Claims>, f: UploadedFile,
                                now: nat, rnd: nat, extname: string -> string)
    requires Valid(t)
    requires CanActivate(req, verify).Ok?
    requires FileFilter(f.mimetype).accept && WithinSizeLimit(f.size)
    ensures
      var email := CanActivate(req, verify).value.1.user.value.email;
      var name := StoredFilename(email, now, rnd, extname(f.originalName));
      var out := UploadAvatar(t, files, env, req, verify, Some(f), now, rnd, extname);
      var u := UpdateUserAvatar(t, files + {name}, env, email, Some(name));
      out.table == u.table && out.files == u.files
  {
  }

  /** After a successful upload of `photo.x`, fetching the avatar with the
      same token sends the new file, typed by the extension `x`. */
  lemma UploadThenFetch(t: UserTable, files: set<string>, env: Env, req: Request,
                                           verify: string -> Option<Claims>, f: UploadedFile,
                                           now: nat, rnd: nat, extname: string -> string, x: string)
    requires Valid(t)
    requires CanActivate(req, verify).Ok?
    requires extname(f.originalName) == "." + x && '.' !in x
    requires
      var email := CanActivate(req, verify).value.1.user.value.email;
      UnusedName(t, StoredFilename(email, now, rnd, extname(f.originalName)))
    ensures
      var out := UploadAvatar(t, files, env, req, verify, Some(f), now, rnd, extname);
      out.result.Ok? ==>
        var email := CanActivate(req, verify).value.1.user.value.email;
        var name := StoredFilename(email, now, rnd, "." + x);
        GetAvatarRoute(out.table, out.files, env.cwd, req, verify)
          == Ok(SendFile(AvatarPath(env.cwd, name), MimeOfExtension(ToLower(x))))
  {
    var out := UploadAvatar(t, files, env, req, verify, Some(f), now, rnd, extname);
    if out.result.Ok? {
      var email := CanActivate(req, verify).value.1.user.value.email;
      var name := StoredFilename(email, now, rnd, "." + x);
      assert name != "";
      UploadGoesThroughUpdate(t, files, env, req, verify, f, now, rnd, extname);
      UpdateThenGetPath(t, files, env, email, name);
      var stem := env.cwd + "/" + AvatarsDir + "/" + (email + "-" + UniqueSuffix(now, rnd));
      StoredPath(env.cwd, email, now, rnd, x);
      FetchTypedByExtension(out.table, out.files, env.cwd, req, verify, stem, x);
    }
  }

  /** The stored avatar's path ends with the client's extension. */
  lemma StoredPath(cwd: string, email: string, now: nat, rnd: nat, x: string)
    ensures AvatarPath(cwd, StoredFilename(email, now, rnd, "." + x))
         == cwd + "/" + AvatarsDir + "/" + (email + "-" + UniqueSuffix(now, rnd)) + "." + x
  {
    var stem := cwd + "/" + AvatarsDir + "/" + (email + "-" + UniqueSuffix(now, rnd));
    StoredFilenameShape(email, now, rnd, "." + x);
    PathOfName(cwd, email + "-" + UniqueSuffix(now, rnd), "." + x);
    assert stem + ("." + x) == stem + "." + x;
  }

  lemma StoredFilenameShape(email: string, now: nat, rnd: nat, ext: string)
    ensures StoredFilename(email, now, rnd, ext) == email + "-" + UniqueSuffix(now, rnd) + ext
  {
  }

  lemma PathOfName(cwd: string, base: string, ext: string)
    ensures AvatarPath(cwd, base + ext) == (cwd + "/" + AvatarsDir + "/" + base) + ext
  {
  }

  /** When the token's user has an avatar file at `stem.x`, fetching it sends
      that file typed by `x`. */
  lemma FetchTypedByExtension(t: UserTable, files: set<string>, cwd: string, req: Request,
                              verify: string -> Option<Claims>, stem: string, x: string)
    requires Valid(t)
    requires CanActivate(req, verify).Ok? && '.' !in x
    requires GetAvatarPath(t, files, cwd, CanActivate(req, verify).value.1.user.value.email) == Ok(stem + "." + x)
    ensures GetAvatarRoute(t, files, cwd, req, verify) == Ok(SendFile(stem + "." + x, MimeOfExtension(ToLower(x))))
  {
    MimeTypeByExtension(stem, x);
  }
}
