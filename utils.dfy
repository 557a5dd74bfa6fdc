/**
 * The helpers of `utils.py` that compute a value: `safe_int`, `truncate_text` and
 * `validate_url`. `validate_url` matches one regular expression; here it is a decision
 * procedure for the same language, anchored like `re.match` with a final `$`.
 */
module Utils {
  import opened Wrappers
  import opened Strings

  /** `safe_int(value, default)`: `int(value)`, or `default` when Python raises `ValueError`. */
  function SafeInt(value: string, default: int): (n: int)
    ensures PyInt(value).Some? ==> n == PyInt(value).value
    ensures PyInt(value).None? ==> n == default
  {
    match PyInt(value)
    case Some(v) => v
    case None => default
  }

  /** Whatever the default, the decimal form of an integer (with any surrounding whitespace) converts back to it. */
  lemma SafeIntRoundTrip(pre: string, n: int, post: string, default: int)
    requires forall i :: 0 <= i < |pre| ==> IsSpace(pre[i])
    requires forall i :: 0 <= i < |post| ==> IsSpace(post[i])
    ensures SafeInt(pre + IntToString(n) + post, default) == n
  {
    PyIntRoundTrip(pre, n, post);
  }

  /** A value with no digit at all falls back to the default. */
  lemma SafeIntWithoutDigits(value: string, default: int)
    requires forall i :: 0 <= i < |value| ==> !IsDigit(value[i])
    ensures SafeInt(value, default) == default
  {
    var u := StripStart(value);
    var t := StripEnd(u);
    forall i | 0 <= i < |t|
      ensures !IsDigit(t[i])
    {
      assert t[i] == u[i] == value[|value| - |u| + i];
    }
    NoDigitsNoInt(t);
  }

  lemma NoDigitsNoInt(t: string)
    requires forall i :: 0 <= i < |t| ==> !IsDigit(t[i])
    ensures !IsIntLiteral(t)
  {
    if |t| > 1 {
      assert t[1..][0] == t[1];
    }
  }

  /** `safe_int("123") == 123`. */
  lemma SafeIntNumberExample()
    ensures SafeInt("123", 0) == 123
  {
    var s := "123";
    assert !IsSpace(s[0]) && !IsSpace(s[2]);
    assert StripStart(s) == s;
    assert StripEnd(s) == s;
    assert AllDigits(s);
    assert s[..2] == "12" && s[..2][..1] == "1";
    assert DigitsValue(s[..2][..1]) == 1 by {
      assert s[..2][..1][..0] == "";
    }
    assert DigitsValue(s[..2]) == 12;
    assert DigitsValue(s) == 123;
    assert PyInt(s) == Some(123);
  }

  /** `safe_int("abc", default=0) == 0`. */
  lemma SafeIntTextExample()
    ensures SafeInt("abc", 0) == 0
  {
    var s := "abc";
    forall i | 0 <= i < |s|
      ensures !IsDigit(s[i])
    {
      assert s[i] == 'a' || s[i] == 'b' || s[i] == 'c';
    }
    SafeIntWithoutDigits(s, 0);
  }

  /** `s[:k]` for any integer `k`: a negative `k` counts from the end, and the slice never runs past either end. */
  function PrefixTo(s: string, k: int): (r: string)
    ensures |r| <= |s| && r == s[..|r|]
    ensures 0 <= k <= |s| ==> |r| == k
    ensures k < 0 ==> |r| == if |s| + k >= 0 then |s| + k else 0
  {
    if k >= |s| then s
    else if k >= 0 then s[..k]
    else if |s| + k >= 0 then s[..|s| + k]
    else []
  }

  /** `truncate_text(text, max_length)`, as written. */
  function TruncateText(text: string, maxLength: int): (r: string)
    ensures |text| <= maxLength ==> r == text
    ensures |text| > maxLength ==> EndsWith(r, "...") && |r| - 3 <= |text| && r[..|r| - 3] == text[..|r| - 3]
  {
    if |text| <= maxLength then text else PrefixTo(text, maxLength - 3) + "..."
  }

  /**
   * With a limit of at least 3, a truncated text is exactly `maxLength` long, so no result is
   * longer than the limit, and truncating again changes nothing.
   */
  lemma TruncateTextFits(text: string, maxLength: int)
    requires maxLength >= 3
    ensures |text| > maxLength ==> |TruncateText(text, maxLength)| == maxLength
    ensures |TruncateText(text, maxLength)| <= maxLength
    ensures TruncateText(TruncateText(text, maxLength), maxLength) == TruncateText(text, maxLength)
  {
  }

  /** A 200-character text cut to 100 is 100 characters long and ends with "...". */
  lemma TruncateTextExample()
    ensures var r := TruncateText(seq(200, _ => 'A'), 100); |r| == 100 && EndsWith(r, "...")
  {
    TruncateTextFits(seq(200, _ => 'A'), 100);
  }

  /**
   * Below a limit of 3, the slice index `max_length - 3` is negative and counts from the end:
   * `truncate_text("abcdef", 2)` is "abcde...", eight characters for a limit of two, and
   * truncating that again makes it longer still.
   */
  lemma TruncateTextShortLimit()
    ensures TruncateText("abcdef", 2) == "abcde..."
    ensures |TruncateText("abcdef", 2)| > 2
    ensures TruncateText(TruncateText("abcdef", 2), 2) != TruncateText("abcdef", 2)
  {
    assert PrefixTo("abcdef", -1) == "abcde";
    assert PrefixTo("abcde...", -1) == "abcde..";
  }

  /** `truncate_text` as intended: when the limit leaves no room for "...", the text is cut to the limit. */
  function TruncateTextBounded(text: string, maxLength: int): (r: string)
    ensures |text| <= maxLength ==> r == text
    ensures maxLength >= 3 ==> r == TruncateText(text, maxLength)
    ensures (|r| <= |text| && r == text[..|r|]) || (EndsWith(r, "...") && |r| - 3 <= |text| && r[..|r| - 3] == text[..|r| - 3])
  {
    if |text| <= maxLength then text
    else if maxLength >= 3 then text[..maxLength - 3] + "..."
    else if maxLength >= 0 then text[..maxLength]
    else []
  }

  /** For every limit that is not negative, the intended truncation fits in it and is idempotent. */
  lemma TruncateTextBoundedFits(text: string, maxLength: int)
    requires maxLength >= 0
    ensures |TruncateTextBounded(text, maxLength)| <= maxLength
    ensures |text| > maxLength ==> |TruncateTextBounded(text, maxLength)| == maxLength
    ensures TruncateTextBounded(TruncateTextBounded(text, maxLength), maxLength) == TruncateTextBounded(text, maxLength)
  {
  }

  predicate IsAsciiLetter(c: char) {
    'a' <= c <= 'z' || 'A' <= c <= 'Z'
  }

  /** `[A-Z0-9]` under `re.IGNORECASE`. */
  predicate IsAlnum(c: char) {
    IsAsciiLetter(c) || IsDigit(c)
  }

  /** `[A-Z0-9](?:[A-Z0-9-]{0,61}[A-Z0-9])?`: one domain label. */
  predicate IsLabel(l: string) {
    1 <= |l| <= 63 && IsAlnum(l[0]) && IsAlnum(l[|l| - 1]) &&
    forall i :: 0 <= i < |l| ==> IsAlnum(l[i]) || l[i] == '-'
  }

  /** `[A-Z]{2,6}`: the top-level domain. */
  predicate IsTopLevel(t: string) {
    2 <= |t| <= 6 && forall i :: 0 <= i < |t| ==> IsAsciiLetter(t[i])
  }

  /** `(?:label\.)+[A-Z]{2,6}\.?`: labels, each followed by a dot, a top-level domain and an optional final dot. */
  predicate IsDomain(h: string) {
    var parts := Split(h, '.');
    var names := if |parts| >= 3 && parts[|parts| - 1] == "" then parts[..|parts| - 1] else parts;
    |names| >= 2 && IsTopLevel(names[|names| - 1]) && forall i :: 0 <= i < |names| - 1 ==> IsLabel(names[i])
  }

  /** `\d{1,3}\.\d{1,3}\.\d{1,3}\.\d{1,3}`. */
  predicate IsDottedQuad(h: string) {
    var parts := Split(h, '.');
    |parts| == 4 && forall i :: 0 <= i < 4 ==> 1 <= |parts[i]| <= 3 && AllDigits(parts[i])
  }

  /** The host alternatives: a domain, `localhost` in any case, or four dotted numbers. */
  predicate IsHost(h: string) {
    IsDomain(h) || Lower(h) == "localhost" || IsDottedQuad(h)
  }

  /** `(?::\d+)?`. */
  predicate IsPort(p: string) {
    p == "" || (|p| >= 2 && p[0] == ':' && AllDigits(p[1..]))
  }

  /** `(?:/?|[/?]\S+)`. */
  predicate IsPath(q: string) {
    q == "" || q == "/" || (|q| >= 2 && (q[0] == '/' || q[0] == '?') && forall k :: 1 <= k < |q| ==> !IsSpace(q[k]))
  }

  /** What follows the host: a port and a path, split somewhere. */
  predicate IsTail(t: string) {
    exists j :: 0 <= j <= |t| && IsPort(t[..j]) && IsPath(t[j..])
  }

  /** The host ends at `i`, and the rest is a port and a path; `$` also matches just before a final newline. */
  predicate HostEndsAt(rest: string, i: int) {
    0 <= i <= |rest| && IsHost(rest[..i]) &&
      (IsTail(rest[i..]) || (i < |rest| && rest[|rest| - 1] == '\n' && IsTail(rest[i..|rest| - 1])))
  }

  /** What follows the scheme: a host, then a port and a path. */
  predicate IsAuthorityAndPath(rest: string) {
    exists i :: 0 <= i <= |rest| && HostEndsAt(rest, i)
  }

  /** `^https?://` under `re.IGNORECASE`: what follows the scheme, if the URL starts with one. */
  function AfterScheme(url: string): (rest: Option<string>)
    ensures rest.Some? ==> |rest.value| <= |url| && rest.value == url[|url| - |rest.value|..]
  {
    if |url| >= 8 && Lower(url[..8]) == "https://" then Some(url[8..])
    else if |url| >= 7 && Lower(url[..7]) == "http://" then Some(url[7..])
    else None
  }

  /** `validate_url(url)`: an accepted URL starts with `http://` or `https://`, in any case. */
  function ValidateUrl(url: string): (ok: bool)
    ensures ok ==> (|url| >= 7 && Lower(url[..7]) == "http://") || (|url| >= 8 && Lower(url[..8]) == "https://")
  {
    match AfterScheme(url)
    case None => false
    case Some(rest) => IsAuthorityAndPath(rest)
  }

  /** Every host, with or without a port, and with or without a path, makes a valid `http://` or `https://` URL. */
  lemma ValidUrlFromParts(secure: bool, host: string, port: string, path: string)
    requires IsHost(host) && IsPort(port) && IsPath(path)
    ensures ValidateUrl((if secure then "https://" else "http://") + host + port + path)
  {
    var scheme := if secure then "https://" else "http://";
    var rest := host + (port + path);
    Regroup(scheme, host, port, path);
    SchemeStripped(secure, rest);
    PortAndPath(port, path);
    HostThenTail(host, port + path);
    ValidFromRest(scheme + rest, rest);
  }

  lemma Regroup(a: string, b: string, c: string, d: string)
    ensures a + b + c + d == a + (b + (c + d))
  {
  }

  lemma HostThenTail(host: string, tail: string)
    requires IsHost(host) && IsTail(tail)
    ensures IsAuthorityAndPath(host + tail)
  {
    var rest := host + tail;
    assert rest[..|host|] == host && rest[|host|..] == tail;
    assert HostEndsAt(rest, |host|);
  }

  lemma ValidFromRest(url: string, rest: string)
    requires AfterScheme(url) == Some(rest) && IsAuthorityAndPath(rest)
    ensures ValidateUrl(url)
  {
  }

  lemma SchemeStripped(secure: bool, rest: string)
    ensures AfterScheme((if secure then "https://" else "http://") + rest) == Some(rest)
  {
    var scheme := if secure then "https://" else "http://";
    var url := scheme + rest;
    assert url[..|scheme|] == scheme;
    assert url[|scheme|..] == rest;
    LowerUnchanged(scheme);
    if !secure && |url| >= 8 {
      assert url[4] == ':';
      assert Lower(url[..8])[4] == LowerChar(url[4]);
    }
  }

  lemma PortAndPath(port: string, path: string)
    requires IsPort(port) && IsPath(path)
    ensures IsTail(port + path)
  {
    var t := port + path;
    assert t[..|port|] == port && t[|port|..] == path;
  }

  /** What follows the scheme does not depend on what comes after it. */
  lemma AfterSchemeAppend(url: string, x: string)
    requires AfterScheme(url).Some?
    ensures AfterScheme(url + x) == Some(AfterScheme(url).value + x)
  {
    var u := url + x;
    if |url| >= 8 && Lower(url[..8]) == "https://" {
      assert u[..8] == url[..8];
      assert u[8..] == url[8..] + x;
    } else {
      assert u[..7] == url[..7];
      assert u[7..] == url[7..] + x;
      if |u| >= 8 {
        assert Lower(u[..8])[4] == Lower(url[..7])[4] == ':';
      }
    }
  }

  /** Because `$` matches before a final newline, a valid URL stays valid with a newline appended. */
  lemma ValidUrlWithNewline(url: string)
    requires ValidateUrl(url) && (url == [] || url[|url| - 1] != '\n')
    ensures ValidateUrl(url + "\n")
  {
    var rest := AfterScheme(url).value;
    AfterSchemeAppend(url, "\n");
    var rest' := rest + "\n";
    var i :| 0 <= i <= |rest| && HostEndsAt(rest, i);
    assert rest != [] ==> rest[|rest| - 1] == url[|url| - 1];
    NewlineAfterTail(rest, i);
  }

  lemma NewlineAfterTail(rest: string, i: int)
    requires HostEndsAt(rest, i) && (rest == [] || rest[|rest| - 1] != '\n')
    ensures HostEndsAt(rest + "\n", i)
  {
    assert IsTail(rest[i..]);
    HostThenNewline(rest, rest + "\n", i);
  }

  lemma HostThenNewline(rest: string, rest': string, i: int)
    requires 0 <= i <= |rest| && rest' == rest + "\n"
    requires IsHost(rest[..i]) && IsTail(rest[i..])
    ensures HostEndsAt(rest', i)
  {
    assert rest'[..i] == rest[..i];
    assert rest'[i..|rest'| - 1] == rest[i..];
  }

  /** "https://example.com", written as its scheme, label, dot and top-level domain, is valid. */
  lemma ValidUrlExampleDomain()
    ensures ValidateUrl("https://" + ("example" + "." + "com"))
  {
    DomainOfTwo("example", "com");
    ValidUrlFromParts(true, "example" + "." + "com", "", "");
    EmptyRight("https://" + ("example" + "." + "com"));
  }

  /** A label and a top-level domain joined by a dot make a domain. */
  lemma DomainOfTwo(name: string, top: string)
    requires IsLabel(name) && IsTopLevel(top)
    ensures IsDomain(name + "." + top)
  {
    SplitOfPiece(top, '.');
    SplitAfterPiece(name, top, '.');
    assert name + "." + top == name + ['.'] + top;
  }

  /** "http://localhost:8080", written as its scheme, host and port, is valid. */
  lemma ValidUrlExampleLocalhost()
    ensures ValidateUrl("http://" + "localhost" + ":8080")
  {
    LocalhostIsHost();
    PortExample();
    ValidUrlFromParts(false, "localhost", ":8080", "");
    EmptyRight("http://" + "localhost" + ":8080");
  }

  lemma PortExample()
    ensures IsPort(":8080")
  {
    DigitsAfterColon(":8080");
  }

  lemma LocalhostIsHost()
    ensures IsHost("localhost")
  {
    LowerUnchanged("localhost");
    LocalhostAnyCase("localhost");
  }

  /** `localhost` in any case is a host. */
  lemma LocalhostAnyCase(h: string)
    requires Lower(h) == "localhost"
    ensures IsHost(h)
  {
  }

  /** Lower-casing leaves a string without capital letters as it is. */
  lemma LowerUnchanged(s: string)
    requires forall i :: 0 <= i < |s| ==> !('A' <= s[i] <= 'Z')
    ensures Lower(s) == s
  {
  }

  lemma DigitsAfterColon(p: string)
    requires |p| >= 2 && p[0] == ':' && forall i :: 1 <= i < |p| ==> IsDigit(p[i])
    ensures IsPort(p)
  {
  }

  lemma EmptyRight(s: string)
    ensures s + "" == s
  {
  }

  /** "invalid-url" is not valid: it has no scheme. */
  lemma InvalidUrlExample()
    ensures !ValidateUrl("invalid-url")
  {
    NoSchemeUnlessH("invalid-url");
  }

  /** A URL not starting with `h` or `H` has no scheme. */
  lemma NoSchemeUnlessH(url: string)
    requires url != [] && LowerChar(url[0]) != 'h'
    ensures AfterScheme(url) == None
  {
    if |url| >= 8 {
      assert Lower(url[..8])[0] == LowerChar(url[0]);
    }
    if |url| >= 7 {
      assert Lower(url[..7])[0] == LowerChar(url[0]);
    }
  }
}
