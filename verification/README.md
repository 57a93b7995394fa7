# Dourbia auth core in Dafny

A model of the account and avatar slice of the Dourbia NestJS backend:

- **signup** against a user table that keeps emails unique, with bcrypt as an
  abstract `hash(password, cost)` and the database save as an operation that
  may refuse the row (the unique constraint, code `23505`) or fail for any
  other reason;
- the **User** entity, its serialised form without the password, and the
  request bodies with the constraints the global validation pipe enforces;
- the placeholder CRUD handlers of the user service;
- the **access guard**: the token is the second space-separated piece of the
  `Authorization` header, checked by an abstract `verify(token)`;
- the **Google strategy**'s profile check and projection;
- **avatars**: the upload filter, the stored-file name, the size limit, the
  service that records an avatar and resolves its path, the two routes and
  the extension-to-content-type mapping.

Every operation is a pure function over immutable values. The user table is a
map from the store-generated id to the row; the avatar directory is the set of
file names in it. Hashing, token verification, the clock, randomness, the
extension function and the environment are parameters.

Files: `wrappers.dfy` (Option, Result, the failure kinds), `text.dfy` (split
and join on one character, ASCII lower-casing, decimal rendering),
`user_entity.dfy`, `dtos.dfy`, `auth_service.dfy`, `auth_guard.dfy`,
`google_strategy.dfy`, `avatar_config.dfy`, `avatar_service.dfy`,
`avatar_controller.dfy`.

The code implements no one-time codes, signin, ban toggling, password reset,
email verification or federated account linking; a user row has no role, ban,
phone, country, region or verification columns; signup returns only the
created user; and emails are compared exactly as given, with no case
normalisation. The model follows the code in each of these.

## Model

| member | source | states |
|---|---|---|
| Text.Split | src/auth/avatar.controller.ts:51 | `split` on one character gives at least one piece, no piece holds the separator, and joining the pieces with it gives back the input |
| Text.SplitJoin | src/auth/guards/auth.guard.ts:11 | splitting a join of separator-free pieces returns exactly those pieces, so the split is the unique such decomposition |
| Text.LastPiece | src/auth/avatar.controller.ts:51 | `split(sep).pop()` is the longest separator-free suffix: the text ends with it, and the character before it, if any, is the separator |
| Text.ToLower | src/auth/avatar.controller.ts:51 | the result has the input's length, each ASCII capital replaced by its lower-case letter and every other character kept |
| Text.IntToString | src/auth/auth.service.ts:25 | the decimal rendering of an integer, which is what a template literal prints for a safe integer, reads back as that integer: a minus sign only for negatives, no leading zeros |
| Text.IntToStringOfParseInt | src/auth/auth.service.ts:25 | every text that reads back as an integer is that integer's rendering, so the rendering and the reading are inverse |
| Text.DecimalInjective | src/auth/avatar.config.ts:9 | distinct numbers have distinct decimal renderings |
| Text.ParseDecimalOfDecimal | src/auth/avatar.config.ts:9 | the decimal text a number is rendered as reads back as that number, so distinct numbers render differently |
| UserEntity.FindByEmail | src/auth/auth.service.ts:39 | the lookup returns a stored row with that email, and finds nothing exactly when no row holds the email |
| UserEntity.Save | src/auth/entities/user.entity.ts:6-10 | a save succeeds exactly when no fault occurs and the email is new; a known email is refused with code 23505; a saved row gets a fresh store-generated id, is the only row added, and keeps emails unique |
| UserEntity.SetAvatarByEmail | src/auth/avatar.service.ts:23-25 | the row holding the email gets the new avatar and keeps every other column; every other row is unchanged; emails stay unique |
| UserEntity.Serialize | src/auth/entities/user.entity.ts:16-18 | the serialised user carries the row's id, email, username and avatar; only the password is dropped |
| UserEntity.SerializeIgnoresPassword | src/auth/entities/user.entity.ts:16-18 | the serialised user is the same whatever the password column holds |
| Dtos.ValidCreate | src/auth/dto/create-auth.dto.ts:10-12 | a signup password meets the update minimum too, so the username, password and avatar of a valid signup body form a valid update body |
| Dtos.ValidUpdate | src/auth/dto/update-auth.dto.ts:7-9 | an update body without a password is valid; one whose password is shorter than 6 characters is not |
| Dtos.ValidCreateMeaning | src/auth/dto/create-auth.dto.ts:4-18 | a signup body is valid exactly when the email is an email, the password has at least 8 characters and username, country and region are non-empty |
| Dtos.CreateAvatarIsFree | src/auth/dto/create-auth.dto.ts:20-21 | the avatar field, present or absent, never changes whether a signup body is valid |
| Dtos.ValidUpdateMeaning | src/auth/dto/update-auth.dto.ts:4-12 | an update body is valid exactly when it has no password or one of at least 6 characters; username and avatar are unconstrained |
| Dtos.EmptyUpdateIsValid | src/auth/dto/update-auth.dto.ts:4-12 | an update body with every field absent is valid |
| Dtos.ShortPasswordOnlyForUpdate | src/auth/dto/update-auth.dto.ts:8 | a 6- or 7-character password passes an update and fails signup |
| AuthService.CreateIgnoresBody | src/auth/auth.service.ts:16-18 | the creation placeholder answers the same whatever the body; it takes no table |
| AuthService.PlaceholderAnswersDiffer | src/auth/auth.service.ts:16-34 | the five placeholder answers differ pairwise, for every id and body: no answer of one handler is an answer of another |
| AuthService.FindOne | src/auth/auth.service.ts:24-26 | answers "This action returns a #", then a text that reads back as the id, then " auth"; takes no table |
| AuthService.Update | src/auth/auth.service.ts:28-30 | answers "This action updates a #", then a text that reads back as the id, then " auth", whatever the body; takes no table |
| AuthService.Remove | src/auth/auth.service.ts:32-34 | answers "This action removes a #", then a text that reads back as the id, then " auth"; takes no table |
| AuthService.PlaceholderMessagesNameTheId | src/auth/auth.service.ts:24-34 | two placeholder answers of one kind are equal only for the same id |
| AuthService.SignupCheck | src/auth/auth.service.ts:37-52 | fails with Conflict "Email already exists" exactly when the email is taken; otherwise the row to save has the body's email and username, the password hashed with cost 12, and an empty avatar |
| AuthService.SignupCommit | src/auth/auth.service.ts:54-62 | a failed save leaves the table unchanged and reports Conflict for code 23505 and InternalServerError otherwise; a successful one adds exactly the new row |
| AuthService.Signup | src/auth/auth.service.ts:36-63 | taken email: Conflict, table unchanged; save fault: Conflict or InternalServerError by code, table unchanged; otherwise exactly one new row with the given email and username, password `hash(password, 12)`, avatar "", returned to the caller; emails stay unique |
| AuthService.SignupIgnoresProfileFields | src/auth/auth.service.ts:37 | country, region and avatar of the body have no effect on signup |
| AuthService.RacingSignups | src/auth/auth.service.ts:39-60 | two signups for one new email that both pass the check before either saves: the first is saved, the second gets Conflict and changes nothing |
| AuthService.SignupEndpoint | src/auth/auth.controller.ts:49-56 | an invalid body is refused with BadRequest before the table is touched; a valid body succeeds exactly when the email is new and the save does not fail, and otherwise gets the service's Conflict or InternalServerError with the table unchanged; a created user is stored with the hashed password and answered serialised, without it |
| AuthService.SignupResponseHidesHash | src/auth/auth.controller.ts:50 | the signup answer is the same whatever the password hashes to |
| AuthGuard.HeaderToken | src/auth/guards/auth.guard.ts:11 | no header or no space gives no token; otherwise the token is the space-free text right after the first space, up to the next space or the end |
| AuthGuard.CanActivate | src/auth/guards/auth.guard.ts:9-24 | never answers false; a missing or empty token fails with "No token provided"; a token the verifier rejects fails with "Invalid or expired token"; otherwise the request carries the verifier's claims |
| AuthGuard.SchemeAndToken | src/auth/guards/auth.guard.ts:11-20 | for `<word> <token>` the token goes to the verifier and the outcome does not depend on the word |
| AuthGuard.LaterPiecesIgnored | src/auth/guards/auth.guard.ts:11 | anything after a second space is ignored |
| AuthGuard.NoTokenHeaders | src/auth/guards/auth.guard.ts:11-15 | a single word, or a word and a trailing space, fails with "No token provided" |
| AuthGuard.DoubleSpaceHidesToken | src/auth/guards/auth.guard.ts:11-15 | two spaces before the token leave an empty second piece and fail with "No token provided" |
| GoogleStrategy.Validate | src/auth/google.strategy.ts:24-44 | succeeds exactly when the profile, its id and its first email value are present and non-empty, else fails with "Invalid Google profile structure"; googleId, email and both tokens are passed through; the name is the display name, or else the longest prefix of the email without '@' |
| GoogleStrategy.OnlyFirstEmailCounts | src/auth/google.strategy.ts:39 | emails after the first never change the outcome |
| GoogleStrategy.NameFromLocalPart | src/auth/google.strategy.ts:40 | without a display name, `local@domain` is named `local` |
| AvatarConfig.SizeLimitIsFiveMebibytes | src/auth/avatar.config.ts:20-22 | the size limit is 5242880 bytes; a file of exactly that size is taken to pass |
| AvatarConfig.SearchFrom | src/auth/avatar.config.ts:15 | the pattern search from a position finds a match exactly when some later position starts a slash followed by an image subtype running to the end |
| AvatarConfig.SearchMeansSuffix | src/auth/avatar.config.ts:15 | the pattern matches exactly the mimetypes ending in /jpg, /jpeg, /png or /gif |
| AvatarConfig.FileFilter | src/auth/avatar.config.ts:14-19 | accepts exactly the mimetypes ending in one of the four image subtypes, with no error; rejects every other with "Only image files are allowed!" |
| AvatarConfig.FilterExamples | src/auth/avatar.config.ts:15 | `image/PNG` is rejected (case-sensitive) and `text/png` is accepted (suffix only) |
| AvatarConfig.UniqueSuffix | src/auth/avatar.config.ts:9 | the suffix splits at '-' into exactly two pieces, which read back as the clock reading and the random number, in that order |
| AvatarConfig.StoredFilename | src/auth/avatar.config.ts:7-12 | the stored name is the uploader's email and a dash, then a text that splits at '-' into the clock reading and the random number, then the extension |
| AvatarConfig.StoredFilenamesDistinct | src/auth/avatar.config.ts:9-11 | one user's uploads with one extension get distinct names whenever the clock reading or the random number differs |
| AvatarService.Interpolate | src/auth/avatar.service.ts:27 | a set variable is inserted as it is; an unset one renders as `undefined` |
| AvatarService.AvatarPath | src/auth/avatar.service.ts:16 | the path is exactly `cwd/uploads/avatars/` followed by the name, with nothing in between; a name without '/' is the path's last piece |
| AvatarService.AvatarUrl | src/auth/avatar.service.ts:27 | the URL is exactly the base URL and `/avatars/` followed by the stored name, with nothing in between; a name without '/' is the URL's last piece |
| AvatarService.UpdateUserAvatarAsWritten | src/auth/avatar.service.ts:10-28 | unknown user: server error, nothing changes; no file: the old avatar file is removed, the row is untouched and the call fails; with a file: the old file is removed when the old avatar is non-empty, only the avatar column changes, and the answer is the avatar URL |
| AvatarService.AsWrittenLosesAvatarFile | src/auth/avatar.service.ts:14-24 | for a user with an avatar, a request without a file leaves the row pointing at a removed file |
| AvatarService.UpdateUserAvatar | src/auth/avatar.service.ts:10-28 | with user and file: the old file is removed only when the old avatar is non-empty (a failed removal is ignored), only the avatar column changes, and the answer is BASE_URL + "/avatars/" + name; without a file nothing changes |
| AvatarService.UpdateKeepsAvatarsOnDisk | src/auth/avatar.service.ts:13-25 | every avatar still names an existing file, and no two users share one, after an update with a fresh stored file |
| AvatarService.GetAvatarPath | src/auth/avatar.service.ts:30-44 | "Avatar not found" when the user is unknown or has no avatar, "Avatar file not found" when the file is gone, otherwise `cwd/uploads/avatars/<avatar>` |
| AvatarService.UpdateThenGetPath | src/auth/avatar.service.ts:23-43 | after recording a stored file, the avatar path resolves to that file |
| AvatarController.MimeOfExtension | src/auth/avatar.controller.ts:52-58 | png gives image/png, gif gives image/gif, every other extension (jpg and jpeg included) image/jpeg |
| AvatarController.MimeType | src/auth/avatar.controller.ts:50-59 | always one of the three image types; an absent name gives image/jpeg |
| AvatarController.MimeTypeByExtension | src/auth/avatar.controller.ts:51 | a name ending in `.x` with no dot in `x` is typed by the lower-cased `x` alone |
| AvatarController.MimeTypeWithoutDot | src/auth/avatar.controller.ts:51 | a name without a dot is matched whole |
| AvatarController.UpperCaseExtension | src/auth/avatar.controller.ts:51 | `PHOTO.PNG` is typed image/png |
| AvatarController.LastExtensionCounts | src/auth/avatar.controller.ts:51 | `a.png.gif` is typed image/gif |
| AvatarController.GetAvatar | src/auth/avatar.controller.ts:31-48 | sends the resolved file with the type of its path when the path resolves, and otherwise the body "Avatar not found" for both kinds of miss |
| AvatarController.GetAvatarRoute | src/auth/avatar.controller.ts:31-36 | a request the guard refuses gets the guard's error; otherwise the handler runs for the token's email |
| AvatarController.UploadAvatar | src/auth/avatar.controller.ts:15-28 | a refused token gets the guard's error; a rejected mimetype gets "Only image files are allowed!" and an oversized file PayloadTooLarge, changing nothing; every failure leaves the user table unchanged; an accepted file for an email with no row gets InternalServerError and stays in the directory; the upload succeeds exactly when the guard passes, the file is present, accepted and within the limit, and the token's email has a row; then the answer is "Avatar uploaded successfully" with the URL of the generated name, that row records the name, and the directory gains the new name and loses the previous avatar's, so the new file is kept unless it has the previous avatar's name |
| AvatarController.UploadThenFetch | src/auth/avatar.controller.ts:15-48 | after a successful upload of a file with extension `.x`, fetching with the same token sends the new file typed by `x` |

## Findings

| source | as written | input that shows it | evidently intended | confidence | as-written member | corrected member |
|---|---|---|---|---|---|---|
| src/auth/avatar.service.ts:14-25 | the old avatar file is removed before `file.filename` is read | an authenticated `POST profile/avatar` without a file, from a user who has an avatar: the file is removed, the call fails on `undefined`, and the row still names the removed file. This assumes the user lookup at line 11 exists as modelled (see "## Left out"): as shipped, `findUserByEmail` is not defined on the user service, so line 11 throws before the unlink, and the avatar controller is registered in no shown module | a request without a file fails without touching the old avatar | medium, not executed | AvatarService.AsWrittenLosesAvatarFile | AvatarService.UpdateKeepsAvatarsOnDisk |

The upload route of the model uses the corrected `AvatarService.UpdateUserAvatar`.

## Left out

- bcrypt hashing is the parameter `hash(password, cost)`; JSON Web Token verification is the parameter `verify(token)`. Both are foreign cryptographic calls.
- TypeORM and PostgreSQL: the table is a map keyed by id; any save failure other than the unique constraint is the parameter `fault`. Concurrency is modelled only as the interleaving of two signups.
- `findUserByEmail`, `updateUserByEmail` and `findByEmail`, which the avatar service calls, are not defined in the user service; they are modelled as the table lookup and the avatar update by email.
- Filesystem calls, `process.cwd()`, `process.env`, `console.log` and `console.error`: the directory is a set of names, the working directory and `BASE_URL` are the `Env` record, logging is dropped.
- AvatarService.AvatarPath: `path.join` is modelled as concatenation with `/`; its normalisation of `..` and duplicate slashes is not modelled.
- `Date.now()` and `Math.round(Math.random() * 1e9)` are the parameters `now` and `rnd`; the range of the random number is not constrained. `extname` is a parameter.
- Text.ToLower: lower-cases ASCII letters only; the rest of Unicode case mapping is not modelled.
- Dtos.ValidCreate: whether a string is an email address is the abstract `isEmail`; lengths are counted in Unicode code points, and the validator's special handling of variation selectors is not modelled; body fields of non-string type are not modelled.
- AuthService.Signup: a failure of the email lookup (auth.service.ts:39) or of the hashing (line 45) happens outside the `try` block and escapes as an unhandled error, answered 500 with no row added; in the model the lookup and the hash cannot fail, and only the save takes a `fault`.
- AuthGuard.CanActivate: the verified claims always carry an email; a token whose payload has none makes the avatar routes use `undefined` as the email (the stored name then starts with `undefined-` and the lookups search for no email), which is not modelled.
- AvatarService.UpdateUserAvatar: an `unlinkSync` that fails for a reason other than the file being absent (permissions, say) is only logged and leaves the file on disk (avatar.service.ts:15-19); the model always removes the old name from the directory. The same holds for AvatarService.UpdateUserAvatarAsWritten.
- AvatarController.UploadAvatar: the filter sees the mimetype the upload library reports; any normalisation the library applies to the client's content type (lower-casing it or dropping its parameters) happens outside the shown code and is not modelled, so `mimetype` is taken to be the reported value.
- AvatarController.UploadAvatar: a request with no file is refused through the corrected AvatarService.UpdateUserAvatar, which leaves the old avatar file in place; the code as written deletes that file first and then fails (AvatarService.UpdateUserAvatarAsWritten, see Findings).
- UserEntity.Serialize: assumes that the signup route's `ClassSerializerInterceptor` honours the `@Exclude()` on the password column (auth.controller.ts:50, user.entity.ts:17). That decorator is imported from `@nestjs/class-transformer` (user.entity.ts:1), not from the `class-transformer` package the interceptor reads its metadata from; if the two keep separate metadata, the password hash is sent in the signup response.
- AuthService.FindOne: the id is an integer; a non-numeric route id (rendered `NaN`) or a fractional one is not modelled, and the message is exact only for safe integers (see Text.IntToString).
- AuthService.Update: the same as AuthService.FindOne: the message is exact only for integer ids of magnitude below 2^53.
- AuthService.Remove: the same as AuthService.FindOne: the message is exact only for integer ids of magnitude below 2^53.
- Text.IntToString: renders every integer with all its digits, which matches JavaScript's number-to-string conversion only for safe integers (magnitude below 2^53). Larger route ids (`+id` gives a double) print rounded, e.g. 2^64 as `18446744073709552000`, and from 10^21 in exponent form, e.g. `1e+21`; the model does not follow this.
- AvatarConfig.SizeLimitIsFiveMebibytes: the code fixes only the number 5242880; whether a file of exactly that size passes is decided by the upload library outside the shown code. The model assumes it does (`<=`).
- How the upload library turns the filter's error and the size limit into HTTP statuses is outside the shown code; they are the failure kinds `FileRejected` and `PayloadTooLarge`. A failure of `res.sendFile` after the headers are chosen is not modelled.
- `src/main.ts`, `src/app.module.ts`, `src/auth/auth.module.ts`: bootstrap, API documentation, dependency injection and database configuration. As configuration only: tokens expire after one hour and the signing secret falls back to `'defaultSecret'`.
- `src/app.service.ts`: a single call to an external user-directory SDK.
- `src/auth/auth.controller.ts`: routing only, apart from the signup route modelled in AuthService.SignupEndpoint; its `signin` calls a method the service does not define.
- `src/auth/guards/jwt.strategy.ts`: not registered as a provider, so never used.
- `src/auth/dto/reset-password.dto.ts`: a single email field with no logic.
- The Google strategy's constructor options and its unused `req` argument.
- One-time codes, bans, signin, email verification and federated account linking: not implemented in the code.
