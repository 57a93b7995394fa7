/** The handful of JavaScript string operations the auth core relies on:
    `String.prototype.split` with a one-character separator (and its inverse,
    `join`), ASCII `toLowerCase`, suffix tests, and the decimal rendering of
    integers performed by template literals and string concatenation. */
module Text {
  import opened Wrappers

  predicate IsPrefix(p: string, s: string) {
    |p| <= |s| && s[..|p|] == p
  }

  predicate EndsWith(s: string, suffix: string) {
    |suffix| <= |s| && s[|s| - |suffix|..] == suffix
  }

  /** Position of the first occurrence of `c` in `s`. */
  function IndexOf(s: string, c: char): (i: nat)
    requires c in s
    ensures i < |s| && s[i] == c
    ensures c !in s[..i]
  {
    if s[0] == c then 0
    else
      var k := IndexOf(s[1..], c);
      assert s[..k + 1] == [s[0]] + s[1..][..k];
      k + 1
  }

  /** Any position holding the first `c` of `s` is the one `IndexOf` finds. */
  lemma IndexOfUnique(s: string, c: char, i: nat)
    requires i < |s| && s[i] == c && c !in s[..i]
    ensures IndexOf(s, c) == i
  {
  }

  /** `parts.join(sep)`. */
  function Join(parts: seq<string>, sep: char): string
  {
    if |parts| == 0 then ""
    else if |parts| == 1 then parts[0]
    else parts[0] + [sep] + Join(parts[1..], sep)
  }

  /** `s.split(sep)` for a one-character separator: the maximal runs of
      characters between separators, left to right; never empty. */
  function Split(s: string, sep: char): (parts: seq<string>)
    ensures |parts| >= 1
    ensures forall k :: 0 <= k < |parts| ==> sep !in parts[k]
    ensures Join(parts, sep) == s
    decreases |s|
  {
    if sep !in s then [s]
    else
      var i := IndexOf(s, sep);
      var rest := Split(s[i + 1..], sep);
      var parts := [s[..i]] + rest;
      assert parts[1..] == rest;
      assert s == s[..i] + [sep] + s[i + 1..];
      parts
  }

  /** Splitting undoes joining: `Split` is the only separator-free
      decomposition of a string. */
  lemma {:induction false} SplitJoin(parts: seq<string>, sep: char)
    requires |parts| >= 1
    requires forall k :: 0 <= k < |parts| ==> sep !in parts[k]
    ensures Split(Join(parts, sep), sep) == parts
    decreases |parts|
  {
    if |parts| > 1 {
      var s := Join(parts, sep);
      var p := parts[0];
      var tail := Join(parts[1..], sep);
      assert s == p + [sep] + tail;
      assert s[|p|] == sep;
      assert s[..|p|] == p;
      IndexOfUnique(s, sep, |p|);
      assert s[|p| + 1..] == tail;
      SplitJoin(parts[1..], sep);
      assert Split(s, sep) == [p] + parts[1..];
    }
  }

  /** The first piece of a split is the longest separator-free prefix. */
  lemma FirstPiece(s: string, sep: char)
    ensures var p := Split(s, sep)[0];
      IsPrefix(p, s) && sep !in p && (|p| < |s| ==> s[|p|] == sep)
  {
    var parts := Split(s, sep);
    if |parts| > 1 {
      assert s == parts[0] + [sep] + Join(parts[1..], sep);
    }
  }

  /** `parts.join(sep)` with the last piece split off. */
  lemma {:induction false} JoinLast(parts: seq<string>, sep: char)
    requires |parts| >= 2
    ensures Join(parts, sep)
         == Join(parts[..|parts| - 1], sep) + [sep] + parts[|parts| - 1]
    decreases |parts|
  {
    if |parts| > 2 {
      JoinLast(parts[1..], sep);
      assert parts[1..][..|parts| - 2] == parts[..|parts| - 1][1..];
    }
  }

  /** `s.split(sep).pop()`: the longest separator-free suffix of `s`. */
  function LastPiece(s: string, sep: char): (l: string)
    ensures EndsWith(s, l) && sep !in l
    ensures |l| < |s| ==> s[|s| - |l| - 1] == sep
  {
    var parts := Split(s, sep);
    if |parts| > 1 then
      JoinLast(parts, sep);
      parts[|parts| - 1]
    else
      parts[0]
  }

  /** A string ending in `sep` followed by a separator-free `x` has `x` as its
      last piece, whatever comes before. */
  lemma LastPieceOfConcat(prefix: string, sep: char, x: string)
    requires sep !in x
    ensures LastPiece(prefix + [sep] + x, sep) == x
  {
    var pieces := Split(prefix, sep) + [x];
    assert pieces[..|pieces| - 1] == Split(prefix, sep);
    JoinLast(pieces, sep);
    SplitJoin(pieces, sep);
  }

  function LowerChar(c: char): char
  {
    if 'A' <= c <= 'Z' then (c as int + 32) as char else c
  }

  /** `s.toLowerCase()`, restricted to the ASCII letters. */
  function ToLower(s: string): (r: string)
    ensures |r| == |s|
    ensures forall i :: 0 <= i < |s| ==> r[i] == LowerChar(s[i])
  {
    if s == [] then [] else [LowerChar(s[0])] + ToLower(s[1..])
  }

  predicate IsDigit(c: char) {
    '0' <= c <= '9'
  }

  predicate AllDigits(s: string) {
    forall i :: 0 <= i < |s| ==> IsDigit(s[i])
  }

  function DigitChar(d: nat): (c: char)
    requires d < 10
    ensures IsDigit(c)
  {
    (d + '0' as int) as char
  }

  function DigitValue(c: char): (d: nat)
    requires IsDigit(c)
    ensures d < 10 && DigitChar(d) == c
  {
    c as int - '0' as int
  }

  /** The decimal rendering of a non-negative integer, as JavaScript prints a
      safe integer: no sign, no leading zero. */
  function Decimal(n: nat): (s: string)
    ensures Canonical(s)
    ensures s[0] == '0' ==> n == 0
    decreases n
  {
    if n < 10 then [DigitChar(n)]
    else Decimal(n / 10) + [DigitChar(n % 10)]
  }

  /** Decimal digits without a leading zero, or the single digit `0`. */
  predicate Canonical(s: string) {
    |s| >= 1 && AllDigits(s) && (s[0] == '0' ==> |s| == 1)
  }

  /** The value of a non-empty string of decimal digits. */
  function ParseDecimal(s: string): nat
    requires |s| >= 1 && AllDigits(s)
  {
    if |s| == 1 then DigitValue(s[0])
    else 10 * ParseDecimal(s[..|s| - 1]) + DigitValue(s[|s| - 1])
  }

  lemma {:induction false} ParseDecimalOfDecimal(n: nat)
    ensures ParseDecimal(Decimal(n)) == n
    decreases n
  {
    if n >= 10 {
      var s := Decimal(n);
      assert s[..|s| - 1] == Decimal(n / 10);
      ParseDecimalOfDecimal(n / 10);
    }
  }

  lemma DecimalInjective(a: nat, b: nat)
    requires Decimal(a) == Decimal(b)
    ensures a == b
  {
    ParseDecimalOfDecimal(a);
    ParseDecimalOfDecimal(b);
  }

  /** Rendering a canonical decimal text's value gives the text back. */
  lemma {:induction false} DecimalOfParse(s: string)
    requires Canonical(s)
    ensures Decimal(ParseDecimal(s)) == s
    decreases |s|
  {
    if |s| > 1 {
      var p := s[..|s| - 1];
      assert p[0] == s[0];
      DecimalOfParse(p);
      var m := ParseDecimal(p);
      var d := DigitValue(s[|s| - 1]);
      assert m != 0;
      assert ParseDecimal(s) / 10 == m && ParseDecimal(s) % 10 == d;
      assert s == p + [s[|s| - 1]];
    }
  }

  /** The number a canonical decimal text denotes; nothing for any other
      text (empty, non-digits, or a leading zero). */
  function ParseNat(s: string): (r: Option<nat>)
    ensures r.Some? <==> Canonical(s)
    ensures r.Some? ==> Decimal(r.value) == s
  {
    if Canonical(s) then
      DecimalOfParse(s);
      Some(ParseDecimal(s))
    else None
  }

  lemma ParseNatOfDecimal(n: nat)
    ensures ParseNat(Decimal(n)) == Some(n)
  {
    ParseDecimalOfDecimal(n);
  }

  /** The integer a text denotes when it is the canonical rendering of one:
      an optional minus sign on a non-zero value, then canonical digits. */
  function ParseInt(s: string): (r: Option<int>)
    ensures r.Some? && r.value >= 0 ==> Decimal(r.value) == s
    ensures r.Some? && r.value < 0 ==> s == "-" + Decimal(-r.value)
  {
    if |s| >= 2 && s[0] == '-' && ParseNat(s[1..]).Some? && ParseNat(s[1..]).value != 0 then
      assert s == "-" + s[1..];
      var v: int := 0 - (ParseNat(s[1..]).value as int);
      Some(v)
    else if ParseNat(s).Some? then
      var v: int := ParseNat(s).value;
      Some(v)
    else None
  }

  /** The decimal rendering of an integer: a minus sign for negatives, then
      the digits with no leading zero. It agrees with a JavaScript template
      literal on safe integers (magnitude below 2^53) only, and reads back as
      the same integer. */
  function IntToString(i: int): (s: string)
    ensures ParseInt(s) == Some(i)
  {
    if i < 0 then
      var s := "-" + Decimal(-i);
      assert s[1..] == Decimal(-i);
      ParseNatOfDecimal(-i);
      s
    else
      ParseNatOfDecimal(i);
      Decimal(i)
  }

  /** Every text `ParseInt` accepts is the rendering of its value. */
  lemma IntToStringOfParseInt(s: string)
    requires ParseInt(s).Some?
    ensures IntToString(ParseInt(s).value) == s
  {
  }
}
