/**
 * `iwaf_challenge`, the response evaluator of the catalog client. A response
 * on the anti-bot challenge path carries, somewhere in its body, a cookie
 * token `iwaf_js_cookie_...`; the evaluator stores that cookie in the
 * session's cookie jar and asks the retrying client to issue the request again.
 */
module Challenge {
  import opened Wrappers
  import opened Urls

  const ChallengePath := "/iwaf-challenge"
  const CookiePrefix := "iwaf_js_cookie_"

  /** A response as the evaluator sees it: its URL and its body as text. */
  datatype Response = Response(url: Url, body: string)

  /**
   * `iwaf_js_cookie_[^']+` can match at `i`: the prefix, then at least one
   * character other than a single quote.
   */
  predicate MatchesAt(s: string, i: int) {
    0 <= i && i + |CookiePrefix| < |s| && s[i..i + |CookiePrefix|] == CookiePrefix
    && s[i + |CookiePrefix|] != '\''
  }

  /** Where the greedy run `[^']*` that starts at `j` stops: at the next quote or at the end. */
  function RunEnd(s: string, j: nat): (e: nat)
    requires j <= |s|
    ensures j <= e <= |s|
    ensures forall k :: j <= k < e ==> s[k] != '\''
    ensures e == |s| || s[e] == '\''
    decreases |s| - j
  {
    if j == |s| || s[j] == '\'' then j else RunEnd(s, j + 1)
  }

  /** The leftmost position at or after `i` where a match starts. */
  function FirstMatchFrom(s: string, i: nat): (r: Option<nat>)
    requires i <= |s|
    ensures r.Some? ==> i <= r.value && MatchesAt(s, r.value)
                        && forall k :: i <= k < r.value ==> !MatchesAt(s, k)
    ensures r.None? ==> forall k :: i <= k < |s| ==> !MatchesAt(s, k)
    decreases |s| - i
  {
    if i == |s| then None else if MatchesAt(s, i) then Some(i) else FirstMatchFrom(s, i + 1)
  }

  /** The extent `s[start..end]` of a regular-expression match. */
  datatype Match = Match(start: nat, end: nat)

  /**
   * `IWAF_JS_COOKIE_RE.search(s)`: the leftmost match, extended as far as the
   * greedy `[^']+` goes.
   */
  function Search(s: string): (r: Option<Match>)
    ensures r.None? <==> forall k :: 0 <= k < |s| ==> !MatchesAt(s, k)
    ensures r.Some? ==>
              && MatchesAt(s, r.value.start)
              && (forall k :: 0 <= k < r.value.start ==> !MatchesAt(s, k))
              && r.value.start + |CookiePrefix| < r.value.end <= |s|
              && (forall k :: r.value.start + |CookiePrefix| <= k < r.value.end ==> s[k] != '\'')
              && (r.value.end == |s| || s[r.value.end] == '\'')
  {
    match FirstMatchFrom(s, 0)
    case None => None
    case Some(i) => Some(Match(i, RunEnd(s, i + |CookiePrefix|)))
  }

  /** `result.group(0)`: the matched text, prefix included. */
  function Token(s: string): Option<string> {
    match Search(s)
    case None => None
    case Some(m) => Some(s[m.start..m.end])
  }

  /**
   * A token found in the body is a piece of the body that starts with the
   * prefix, has something after it and holds no single quote.
   */
  lemma TokenShape(s: string)
    ensures Token(s).Some? ==>
              var t := Token(s).value;
              && |t| > |CookiePrefix| && t[..|CookiePrefix|] == CookiePrefix && '\'' !in t
              && exists i :: 0 <= i <= |s| && t <= s[i..]
  {
    if Token(s).Some? {
      var m := Search(s).value;
      var t := s[m.start..m.end];
      var n := |CookiePrefix|;
      assert t[..n] == s[m.start..m.start + n] == CookiePrefix;
      assert '\'' !in CookiePrefix;
      forall k | 0 <= k < |t| ensures t[k] != '\'' {
        if k < n {
          assert t[k] == CookiePrefix[k];
        } else {
          assert t[k] == s[m.start + k];
        }
      }
      assert t <= s[m.start..];
    }
  }

  /** Position of the first `c` in `s`. */
  function Find(s: string, c: char): (r: Option<nat>)
    ensures r.Some? ==> r.value < |s| && s[r.value] == c && c !in s[..r.value]
    ensures r.None? ==> c !in s
  {
    if s == [] then None
    else if s[0] == c then Some(0)
    else match Find(s[1..], c)
      case None => None
      case Some(i) => assert s[..i + 1] == [s[0]] + s[1..][..i]; Some(i + 1)
  }

  /**
   * `BaseCookie(token)` read as one cookie: the name is what precedes the first
   * `=`, the value what follows it up to the first `;`. Without `=` there is
   * no cookie.
   */
  function ParseCookie(token: string): (r: Option<(string, string)>)
    ensures r.Some? <==> '=' in token
    ensures r.Some? ==> '=' !in r.value.0 && ';' !in r.value.1
                        && exists i :: 0 <= i < |token| && token[..i] == r.value.0
                                       && token[i] == '=' && r.value.1 <= token[i + 1..]
    ensures r.Some? ==> var rest := token[|r.value.0| + 1..];
                        |r.value.1| == |rest| || rest[|r.value.1|] == ';'
  {
    match Find(token, '=')
    case None => None
    case Some(i) =>
      var rest := token[i + 1..];
      var value := match Find(rest, ';')
        case None => rest
        case Some(j) => rest[..j];
      Some((token[..i], value))
  }

  /** The jar maps a response URL to the cookies stored for it by name. */
  type CookieJar = map<Url, map<string, string>>

  function CookiesFor(jar: CookieJar, url: Url): map<string, string> {
    if url in jar then jar[url] else map[]
  }

  /** The jar after the evaluator has seen `resp`. */
  function AfterChallenge(jar: CookieJar, resp: Response): CookieJar {
    if resp.url.path != ChallengePath then jar
    else match Token(resp.body)
      case None => jar
      case Some(token) =>
        match ParseCookie(token)
        case None => jar
        case Some((name, value)) => jar[resp.url := CookiesFor(jar, resp.url)[name := value]]
  }

  /**
   * The cookie jar of the catalog session; `iwaf_challenge` is the evaluator
   * the retrying client calls on every response.
   */
  class CatalogSession {
    var cookieJar: CookieJar

    constructor ()
      ensures cookieJar == map[]
    {
      cookieJar := map[];
    }

    /** `true` accepts the response; `false` asks for the request again. */
    method IwafChallenge(resp: Response) returns (accept: bool)
      modifies this
      ensures accept <==> resp.url.path != ChallengePath
      ensures cookieJar == AfterChallenge(old(cookieJar), resp)
    {
      if resp.url.path != ChallengePath {
        return true;
      }
      var html := resp.body;
      var result := Search(html);
      if result.None? {
        return false;
      }
      var token := html[result.value.start..result.value.end];
      var cookie := ParseCookie(token);
      if cookie.Some? {
        var (name, value) := cookie.value;
        cookieJar := cookieJar[resp.url := CookiesFor(cookieJar, resp.url)[name := value]];
      }
      return false;
    }
  }

  /**
   * What the evaluator may change: nothing away from the challenge path or when
   * no token is found, and otherwise only the cookie it parsed, in the entry
   * for the response's URL.
   */
  lemma AfterChallengeFrame(jar: CookieJar, resp: Response)
    ensures resp.url.path != ChallengePath ==> AfterChallenge(jar, resp) == jar
    ensures Token(resp.body).None? ==> AfterChallenge(jar, resp) == jar
    ensures forall u :: u != resp.url ==>
              (u in AfterChallenge(jar, resp) <==> u in jar)
              && (u in jar ==> AfterChallenge(jar, resp)[u] == jar[u])
    ensures resp.url.path == ChallengePath && Token(resp.body).Some?
            && ParseCookie(Token(resp.body).value).Some? ==>
              var (name, value) := ParseCookie(Token(resp.body).value).value;
              && CookiesFor(AfterChallenge(jar, resp), resp.url)[name] == value
              && (forall other :: other != name ==>
                    (other in CookiesFor(AfterChallenge(jar, resp), resp.url) <==> other in CookiesFor(jar, resp.url)))
              && forall other :: other != name && other in CookiesFor(jar, resp.url) ==>
                   CookiesFor(AfterChallenge(jar, resp), resp.url)[other] == CookiesFor(jar, resp.url)[other]
    ensures Token(resp.body).Some? && '=' !in Token(resp.body).value ==> AfterChallenge(jar, resp) == jar
  {
  }

  /** A token in single quotes, as a challenge page embeds it in its script, is found whole. */
  lemma QuotedToken(t: string)
    requires |t| > |CookiePrefix| && t[..|CookiePrefix|] == CookiePrefix && '\'' !in t
    ensures Token("'" + t + "'") == Some(t)
  {
    var s := "'" + t + "'";
    var n := |CookiePrefix|;
    assert !MatchesAt(s, 0) by {
      assert s[0..n][0] == '\'' != CookiePrefix[0];
    }
    assert s[1..n + 1] == t[..n];
    assert s[n + 1] == t[n];
    assert MatchesAt(s, 1);
    var m := Search(s).value;
    assert m.start == 1;
    assert s[|t| + 1] == '\'';
    assert s[1..|t| + 1] == t;
  }

  /** Searching past a part without `c`. */
  lemma {:induction false} FindAfter(a: string, b: string, c: char)
    requires c !in a
    ensures Find(a + b, c) == match Find(b, c) case None => None case Some(i) => Some(|a| + i)
  {
    if a != [] {
      assert (a + b)[1..] == a[1..] + b;
      assert a[0] in a;
      FindAfter(a[1..], b, c);
    } else {
      assert a + b == b;
    }
  }

  /** A cookie `name=value` with no `=` in the name and no `;` in the value parses as that pair. */
  lemma CookieOfNameValue(name: string, value: string)
    requires '=' !in name && ';' !in value
    ensures ParseCookie(name + "=" + value) == Some((name, value))
  {
    var token := name + "=" + value;
    assert token == name + ("=" + value);
    FindAfter(name, "=" + value, '=');
    assert token[..|name|] == name;
    assert token[|name| + 1..] == value;
  }

  /**
   * A cookie followed by attributes, `name=value;attrs`, parses as `name` and
   * `value`: the value stops at the first `;`.
   */
  lemma CookieWithAttributes(name: string, value: string, attrs: string)
    requires '=' !in name && ';' !in value
    ensures ParseCookie(name + "=" + value + ";" + attrs) == Some((name, value))
  {
    var token := name + "=" + value + ";" + attrs;
    assert token == name + ("=" + value + ";" + attrs);
    FindAfter(name, "=" + value + ";" + attrs, '=');
    var rest := token[|name| + 1..];
    assert rest == value + (";" + attrs);
    FindAfter(value, ";" + attrs, ';');
    assert token[..|name|] == name;
    assert rest[..|value|] == value;
  }

  /**
   * A challenge page whose body is `'iwaf_js_cookie_ABC123=xyz'` leaves the
   * cookie `iwaf_js_cookie_ABC123` with the value `xyz` in the jar, scoped to
   * the response's URL.
   */
  lemma ChallengeExample(jar: CookieJar, url: Url)
    requires url.path == ChallengePath
    ensures var cookies := CookiesFor(AfterChallenge(jar, Response(url, "'" + (CookiePrefix + "ABC123" + "=" + "xyz") + "'")), url);
            CookiePrefix + "ABC123" in cookies && cookies[CookiePrefix + "ABC123"] == "xyz"
  {
    ExampleToken();
    ExampleCookie();
  }

  lemma ExampleToken()
    ensures Token("'" + (CookiePrefix + "ABC123" + "=" + "xyz") + "'") == Some(CookiePrefix + "ABC123" + "=" + "xyz")
  {
    var token := CookiePrefix + "ABC123" + "=" + "xyz";
    assert token[..|CookiePrefix|] == CookiePrefix;
    assert '\'' !in token;
    QuotedToken(token);
  }

  lemma ExampleCookie()
    ensures ParseCookie(CookiePrefix + "ABC123" + "=" + "xyz") == Some((CookiePrefix + "ABC123", "xyz"))
  {
    assert '=' !in CookiePrefix + "ABC123";
    CookieOfNameValue(CookiePrefix + "ABC123", "xyz");
  }
}
