/** The upload settings for avatars: which files the filter lets through, the
    name a stored file gets, and the size limit. The clock reading and the
    rounded random number that make the name unique, and the extension taken
    from the client's file name, are parameters. */
module AvatarConfig {
  import opened Wrappers
  import opened Text

  /** The largest accepted upload, in bytes: five mebibytes. */
  const AvatarMaxBytes: nat := 1024 * 1024 * 5

  const ImageOnly: string := "Only image files are allowed!"

  /** The upload fits the size limit. */
  predicate WithinSizeLimit(size: nat) {
    size <= AvatarMaxBytes
  }

  lemma SizeLimitIsFiveMebibytes()
    ensures AvatarMaxBytes == 5242880
    ensures WithinSizeLimit(5242880) && !WithinSizeLimit(5242881)
  {
  }

  /** The alternatives of the filter pattern `\/(jpg|jpeg|png|gif)$`. */
  predicate IsImageSubtype(s: string) {
    s == "jpg" || s == "jpeg" || s == "png" || s == "gif"
  }

  /** The pattern matches at position `i`: a slash there, then one of the
      alternatives running to the end of the string. */
  predicate MatchesAt(m: string, i: nat)
    requires i < |m|
  {
    m[i] == '/' && IsImageSubtype(m[i + 1..])
  }

  /** The pattern search, trying every start position from `i` onwards. */
  function SearchFrom(m: string, i: nat): (found: bool)
    requires i <= |m|
    ensures found <==> exists j :: i <= j < |m| && MatchesAt(m, j)
    decreases |m| - i
  {
    if i == |m| then false
    else MatchesAt(m, i) || SearchFrom(m, i + 1)
  }

  /** The mimetypes the filter is meant to let through: those ending in one of
      four image subtypes, compared case-sensitively. */
  predicate HasImageSuffix(m: string) {
    EndsWith(m, "/jpg") || EndsWith(m, "/jpeg") || EndsWith(m, "/png") || EndsWith(m, "/gif")
  }

  lemma MatchGivesSuffix(m: string, j: nat)
    requires j < |m| && MatchesAt(m, j)
    ensures HasImageSuffix(m)
  {
    assert m[j..] == "/" + m[j + 1..];
  }

  lemma SuffixGivesMatch(m: string, suffix: string)
    requires |suffix| >= 1 && suffix[0] == '/' && IsImageSubtype(suffix[1..])
    requires EndsWith(m, suffix)
    ensures MatchesAt(m, |m| - |suffix|)
  {
  }

  lemma SearchMeansSuffix(m: string)
    ensures SearchFrom(m, 0) <==> HasImageSuffix(m)
  {
    if SearchFrom(m, 0) {
      var j :| 0 <= j < |m| && MatchesAt(m, j);
      MatchGivesSuffix(m, j);
    }
    if EndsWith(m, "/jpg") {
      SuffixGivesMatch(m, "/jpg");
    } else if EndsWith(m, "/jpeg") {
      SuffixGivesMatch(m, "/jpeg");
    } else if EndsWith(m, "/png") {
      SuffixGivesMatch(m, "/png");
    } else if EndsWith(m, "/gif") {
      SuffixGivesMatch(m, "/gif");
    }
  }

  /** The filter's verdict: the error passed to the callback and whether the
      file is accepted. */
  datatype FilterDecision = FilterDecision(error: Option<string>, accept: bool)

  /** `fileFilter(req, file, cb)` on the file's mimetype. */
  function FileFilter(mimetype: string): (d: FilterDecision)
    ensures d.accept <==> HasImageSuffix(mimetype)
    ensures d.accept ==> d.error.None?
    ensures !d.accept ==> d.error == Some(ImageOnly)
  {
    SearchMeansSuffix(mimetype);
    if !SearchFrom(mimetype, 0) then FilterDecision(Some(ImageOnly), false)
    else FilterDecision(None, true)
  }

  /** The comparison is case-sensitive and looks at the suffix only. */
  lemma FilterExamples()
    ensures !FileFilter("image/PNG").accept
    ensures FileFilter("text/png").accept
    ensures FileFilter("image/jpeg").accept
    ensures !FileFilter("image/svg+xml").accept
  {
    assert "text/png"[4..] == "/png";
    assert "image/jpeg"[5..] == "/jpeg";
  }

  /** `Date.now() + '-' + Math.round(Math.random() * 1e9)`. */
  function UniqueSuffix(now: nat, rnd: nat): (s: string)
    ensures var pieces := Split(s, '-');
      && pieces == [Decimal(now), Decimal(rnd)]
      && ParseNat(pieces[0]) == Some(now) && ParseNat(pieces[1]) == Some(rnd)
  {
    var s := Decimal(now) + "-" + Decimal(rnd);
    NoDashInDecimal(now);
    NoDashInDecimal(rnd);
    assert Join([Decimal(now), Decimal(rnd)], '-') == s;
    SplitJoin([Decimal(now), Decimal(rnd)], '-');
    ParseNatOfDecimal(now);
    ParseNatOfDecimal(rnd);
    s
  }

  /** The name a stored avatar gets: the uploader's email, a dash, the unique
      suffix, and the extension of the client's file name. The clock reading
      and the random number read back from the text between the email's dash
      and the extension, in that order. */
  function StoredFilename(email: string, now: nat, rnd: nat, ext: string): (f: string)
    ensures |email| + 1 <= |f| - |ext|
    ensures IsPrefix(email + "-", f)
    ensures EndsWith(f, ext)
    ensures var mid := Split(f[|email| + 1..|f| - |ext|], '-');
      |mid| == 2 && ParseNat(mid[0]) == Some(now) && ParseNat(mid[1]) == Some(rnd)
  {
    var u := UniqueSuffix(now, rnd);
    var f := email + "-" + u + ext;
    assert f[..|email| + 1] == email + "-";
    assert f[|f| - |ext|..] == ext;
    assert f[|email| + 1..|f| - |ext|] == u;
    f
  }

  lemma NoDashInDecimal(n: nat)
    ensures '-' !in Decimal(n)
  {
  }

  /** One user uploading twice with the same extension gets two different
      names whenever the clock reading or the random number differs. */
  lemma StoredFilenamesDistinct(email: string, ext: string, now1: nat, rnd1: nat, now2: nat, rnd2: nat)
    requires now1 != now2 || rnd1 != rnd2
    ensures StoredFilename(email, now1, rnd1, ext) != StoredFilename(email, now2, rnd2, ext)
  {
  }
}
