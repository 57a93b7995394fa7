/** The access guard on protected routes: it takes the second space-separated
    piece of the Authorization header as the token, asks the token verifier
    (the parameter `verify`) for its claims, and attaches them to the request.
    The scheme word before the first space is never looked at. */
module AuthGuard {
  import opened Wrappers
  import opened Http
  import opened Text

  /** The decoded token payload: the email the avatar routes read, and
      whatever other claims the token carries. */
  datatype Claims = Claims(email: string, other: map<string, string>)

  /** The parts of an incoming request the guard reads and writes. */
  datatype Request = Request(authorization: Option<string>, user: Option<Claims>)

  const NoToken: string := "No token provided"
  const BadToken: string := "Invalid or expired token"

  /** `authorization?.split(' ')[1]`: absent when the header is absent or
      holds no space. */
  function HeaderToken(authorization: Option<string>): (tok: Option<string>)
    ensures authorization.None? ==> tok.None?
    ensures authorization.Some? ==> (tok.Some? <==> ' ' in authorization.value)
    ensures tok.Some? ==>
      var h := authorization.value;
      var i := IndexOf(h, ' ');
      && ' ' !in tok.value
      && IsPrefix(tok.value, h[i + 1..])
      && (i + 1 + |tok.value| < |h| ==> h[i + 1 + |tok.value|] == ' ')
  {
    match authorization
    case None => None
    case Some(h) =>
      var pieces := Split(h, ' ');
      if |pieces| < 2 then None
      else
        FirstPiece(h[IndexOf(h, ' ') + 1..], ' ');
        Some(pieces[1])
  }

  /** `canActivate`: `true` with the claims attached, or an exception. */
  function CanActivate(req: Request, verify: string -> Option<Claims>)
    : (r: Result<(bool, Request), Failure>)
    ensures r.Ok? ==> r.value.0
    ensures r.Err? ==> r.error == Unauthorized(NoToken) || r.error == Unauthorized(BadToken)
    ensures r == Err(Unauthorized(NoToken)) <==> HeaderToken(req.authorization) in {None, Some("")}
    ensures r.Ok? <==>
      var tok := HeaderToken(req.authorization);
      tok.Some? && tok.value != "" && verify(tok.value).Some?
    ensures r.Ok? ==>
      var tok := HeaderToken(req.authorization).value;
      r.value.1 == req.(user := verify(tok))
  {
    match HeaderToken(req.authorization)
    case None => Err(Unauthorized(NoToken))
    case Some(tok) =>
      if tok == "" then Err(Unauthorized(NoToken))
      else
        match verify(tok)
        case None => Err(Unauthorized(BadToken))
        case Some(claims) => Ok((true, req.(user := Some(claims))))
  }

  /** The header `<scheme> <token>` of section 2.1 of RFC 6750, with any scheme
      word and a token free of spaces, hands the token to the verifier; the
      outcome does not depend on the scheme word. */
  lemma SchemeAndToken(scheme: string, tok: string, user: Option<Claims>,
                                          verify: string -> Option<Claims>)
    requires ' ' !in scheme && ' ' !in tok && tok != ""
    ensures HeaderToken(Some(scheme + " " + tok)) == Some(tok)
    ensures CanActivate(Request(Some(scheme + " " + tok), user), verify)
         == match verify(tok)
            case None => Err(Unauthorized(BadToken))
            case Some(c) => Ok((true, Request(Some(scheme + " " + tok), Some(c))))
  {
  }

  /** Whatever follows a second space is ignored. */
  lemma LaterPiecesIgnored(scheme: string, tok: string, rest: string)
    requires ' ' !in scheme && ' ' !in tok
    ensures HeaderToken(Some(scheme + " " + tok + " " + rest)) == Some(tok)
  {
    var r := Split(rest, ' ');
    var pieces := [scheme, tok] + r;
    assert ([tok] + r)[1..] == r;
    assert Join([tok] + r, ' ') == tok + " " + rest;
    assert pieces[1..] == [tok] + r;
    assert Join(pieces, ' ') == scheme + " " + (tok + " " + rest);
    assert scheme + " " + (tok + " " + rest) == scheme + " " + tok + " " + rest;
    SplitJoin(pieces, ' ');
  }

  /** A header that is a single word, or a word followed by a space and
      nothing else, carries no token. */
  lemma NoTokenHeaders(scheme: string, user: Option<Claims>,
                                          verify: string -> Option<Claims>)
    requires ' ' !in scheme
    ensures CanActivate(Request(Some(scheme), user), verify) == Err(Unauthorized(NoToken))
    ensures CanActivate(Request(Some(scheme + " "), user), verify) == Err(Unauthorized(NoToken))
  {
  }

  /** Two spaces between the scheme and the token leave an empty second
      piece, so the token is never reached. */
  lemma DoubleSpaceHidesToken(scheme: string, tok: string, user: Option<Claims>,
                                                 verify: string -> Option<Claims>)
    requires ' ' !in scheme && ' ' !in tok
    ensures CanActivate(Request(Some(scheme + "  " + tok), user), verify) == Err(Unauthorized(NoToken))
  {
    assert [scheme, "", tok][1..] == ["", tok];
    assert Join(["", tok], ' ') == " " + tok;
    assert Join([scheme, "", tok], ' ') == scheme + "  " + tok;
    SplitJoin([scheme, "", tok], ' ');
  }
}
