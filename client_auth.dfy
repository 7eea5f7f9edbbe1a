/**
 * The browser-side token lookup of public/paginas/sistema/middle.js:
 * `checkAuthentication` reads the token from localStorage (when the page URL
 * carries `auth=local`) or from the `token` cookie, falling back to
 * localStorage, and sends the browser to the login page when there is none;
 * `authenticatedFetch` attaches the token to a request and handles a 401.
 * The cookie string is scanned loosely, in the spirit of the `name=value`
 * pairs of section 4.2.1 of RFC 6265.
 */
module ClientAuth {
  import opened Wrappers
  import opened JsStrings
  import opened Http

  const TokenName := "token"
  const JwtKey := "jwt_token"
  const AuthorizationHeader := "Authorization"
  const IncludeCredentials := "include"

  // ---------------------------------------------------------------- the cookie scan

  /** One `name=value` entry of the cookie string, as the destructuring sees it; a missing value is `undefined` (None). */
  datatype CookieEntry = CookieEntry(name: string, value: Option<string>)

  /** `const [name, value] = cookie.trim().split('=')`: the first two pieces of the trimmed entry. */
  function ParseEntry(entry: string): (e: CookieEntry)
    ensures '=' !in e.name
    ensures e.value.Some? ==> '=' !in e.value.value
    ensures e.value.None? <==> '=' !in Trim(entry)
  {
    var parts := Split(Trim(entry), '=');
    SplitPiecesLackSeparator(Trim(entry), '=');
    SplitSingleIff(Trim(entry), '=');
    CookieEntry(parts[0], if |parts| >= 2 then Some(parts[1]) else None)
  }

  /** An entry `name=a=b` (after trimming) has the name `name` and the value `a`: what follows a second `=` is dropped. */
  lemma EntryParts(entry: string, name: string, a: string, b: string)
    requires '=' !in name && '=' !in a
    requires Trim(entry) == name + "=" + a + "=" + b
    ensures ParseEntry(entry) == CookieEntry(name, Some(a))
  {
    assert Trim(entry) == name + ['='] + (a + ['='] + b);
    SplitAtFirst(name, '=', a + ['='] + b);
    SplitAtFirst(a, '=', b);
  }

  /** An entry `name=a` (after trimming) has the name `name` and the value `a`. */
  lemma EntryPair(entry: string, name: string, a: string)
    requires '=' !in name && '=' !in a
    requires Trim(entry) == name + "=" + a
    ensures ParseEntry(entry) == CookieEntry(name, Some(a))
  {
    SplitAtFirst(name, '=', a);
    SplitWithout(a, '=');
  }

  /** An entry without `=` is a bare name: its value is `undefined`. */
  lemma BareEntry(entry: string, name: string)
    requires '=' !in name && Trim(entry) == name
    ensures ParseEntry(entry) == CookieEntry(name, None)
  {
    SplitWithout(name, '=');
  }

  /** The value of the first of `entries` named `token`, or None when no entry has that name. */
  function TokenAmong(entries: seq<string>): Option<string> {
    if entries == [] then None
    else
      var e := ParseEntry(entries[0]);
      if e.name == TokenName then e.value else TokenAmong(entries[1..])
  }

  /** What the cookie loop leaves in `token`. */
  function CookieToken(cookie: string): Option<string> {
    TokenAmong(Split(cookie, ';'))
  }

  /** The first entry named `token` supplies the value, whatever follows it. */
  lemma {:induction false} FirstTokenEntryWins(entries: seq<string>, k: nat)
    requires k < |entries|
    requires ParseEntry(entries[k]).name == TokenName
    requires forall j :: 0 <= j < k ==> ParseEntry(entries[j]).name != TokenName
    ensures TokenAmong(entries) == ParseEntry(entries[k]).value
  {
    if k > 0 {
      assert ParseEntry(entries[0]).name != TokenName;
      assert forall j :: 0 <= j < k - 1 ==> entries[1..][j] == entries[j + 1];
      FirstTokenEntryWins(entries[1..], k - 1);
    }
  }

  /** With no entry named `token` the scan yields nothing. */
  lemma {:induction false} NoTokenEntry(entries: seq<string>)
    requires forall j :: 0 <= j < |entries| ==> ParseEntry(entries[j]).name != TokenName
    ensures TokenAmong(entries).None?
  {
    if entries != [] {
      assert ParseEntry(entries[0]).name != TokenName;
      assert forall j :: 0 <= j < |entries| - 1 ==> entries[1..][j] == entries[j + 1];
      NoTokenEntry(entries[1..]);
    }
  }

  /** The loop over `document.cookie.split(';')`, stopping at the first entry named `token`. */
  method ScanCookies(cookie: string) returns (token: Option<string>)
    ensures token == CookieToken(cookie)
  {
    var cookies := Split(cookie, ';');
    token := None;
    var i := 0;
    while i < |cookies|
      invariant 0 <= i <= |cookies|
      invariant TokenAmong(cookies[i..]) == TokenAmong(cookies)
      invariant token.None?
    {
      var entry := ParseEntry(cookies[i]);
      assert cookies[i..][0] == cookies[i] && cookies[i..][1..] == cookies[i + 1..];
      if entry.name == TokenName {
        token := entry.value;
        break;
      }
      i := i + 1;
    }
  }

  // ---------------------------------------------------------------- the decision

  /**
   * The token `checkAuthentication` returns, or None where it returns false:
   * in local mode only localStorage counts; otherwise a truthy cookie value
   * wins and localStorage is the fallback.
   */
  function FindToken(local: bool, cookie: string, stored: Option<string>): (t: Option<string>)
    ensures t.Some? ==> t.value != ""
  {
    var token := if local then stored
                 else if Truthy(CookieToken(cookie)) then CookieToken(cookie)
                 else stored;
    if Truthy(token) then token else None
  }

  /**
   * No token exactly when localStorage has none and (in local mode, or when
   * the cookie scan gives nothing truthy); otherwise a truthy cookie value
   * wins outside local mode, and localStorage supplies the rest.
   */
  lemma FindTokenCases(local: bool, cookie: string, stored: Option<string>)
    ensures var t := FindToken(local, cookie, stored);
      && (t.None? <==> !Truthy(stored) && (local || !Truthy(CookieToken(cookie))))
      && (local ==> t == (if Truthy(stored) then stored else None))
      && (!local && Truthy(CookieToken(cookie)) ==> t == CookieToken(cookie))
      && (!local && !Truthy(CookieToken(cookie)) ==> t == (if Truthy(stored) then stored else None))
  {
  }

  /** In local mode the cookies are never consulted. */
  lemma LocalModeIgnoresCookies(c1: string, c2: string, stored: Option<string>)
    ensures FindToken(true, c1, stored) == FindToken(true, c2, stored)
  {
  }

  /** `token=a=b` as the first `token` entry of the cookie string yields `a`: only the piece between the first and the second `=` is kept. */
  lemma CookieValueIsSecondSegment(cookie: string, k: nat, a: string, b: string)
    requires k < |Split(cookie, ';')|
    requires forall j :: 0 <= j < k ==> ParseEntry(Split(cookie, ';')[j]).name != TokenName
    requires '=' !in a && Trim(Split(cookie, ';')[k]) == TokenName + "=" + a + "=" + b
    ensures CookieToken(cookie) == Some(a)
  {
    var entries := Split(cookie, ';');
    EntryParts(entries[k], TokenName, a, b);
    FirstTokenEntryWins(entries, k);
  }

  /**
   * A first `token` entry that is bare (`token`) or empty (`token=`) gives no
   * usable value, so the outcome is the one localStorage alone gives.
   */
  lemma BareOrEmptyTokenFallsBack(cookie: string, k: nat, stored: Option<string>)
    requires k < |Split(cookie, ';')|
    requires forall j :: 0 <= j < k ==> ParseEntry(Split(cookie, ';')[j]).name != TokenName
    requires Trim(Split(cookie, ';')[k]) == TokenName || Trim(Split(cookie, ';')[k]) == TokenName + "="
    ensures FindToken(false, cookie, stored) == FindToken(true, cookie, stored)
  {
    var entries := Split(cookie, ';');
    if Trim(entries[k]) == TokenName {
      BareEntry(entries[k], TokenName);
    } else {
      assert TokenName + "=" == TokenName + "=" + "";
      EntryPair(entries[k], TokenName, "");
    }
    FirstTokenEntryWins(entries, k);
  }

  /** A request as `fetch` receives it: the URL and the two option fields the client sets. */
  datatype Request = Request(url: string, headers: map<string, string>, credentials: Option<string>)

  /** What `fetch` does: a response with a status, or a rejected promise. */
  datatype Reply = NetworkError | Answered(status: nat)

  /** The settled promise of `authenticatedFetch`: null, the response, or the rethrown error. */
  datatype FetchOutcome = Null | Returned(status: nat) | Thrown

  /** `Bearer <token>`, the header value of section 2.1 of RFC 6750. */
  function Bearer(token: string): (v: string)
    ensures |v| == 7 + |token| && v[..7] == "Bearer " && v[7..] == token
  {
    "Bearer " + token
  }

  /** The `options` object handed to `authenticatedFetch`, changed in place by it. */
  class FetchOptions {
    var headers: map<string, string>
    var credentials: Option<string>

    constructor (headers: map<string, string>, credentials: Option<string>)
      ensures this.headers == headers && this.credentials == credentials
    {
      this.headers := headers;
      this.credentials := credentials;
    }
  }

  /** The page's view of the browser: the `auth` URL parameter, `document.cookie`, localStorage and `location.href`. */
  class Page {
    var authParam: Option<string>
    var cookie: string
    var storage: map<string, string>
    var href: string

    constructor (authParam: Option<string>, cookie: string, storage: map<string, string>, href: string)
      ensures this.authParam == authParam && this.cookie == cookie
      ensures this.storage == storage && this.href == href
    {
      this.authParam := authParam;
      this.cookie := cookie;
      this.storage := storage;
      this.href := href;
    }

    /** `urlParams.get('auth') === 'local'` */
    predicate LocalMode()
      reads this
    {
      authParam == Some("local")
    }

    /** `localStorage.getItem('jwt_token')` */
    function Stored(): (v: Option<string>)
      reads this
      ensures v.Some? <==> JwtKey in storage
      ensures v.Some? ==> v.value == storage[JwtKey]
    {
      if JwtKey in storage then Some(storage[JwtKey]) else None
    }

    /** `checkAuthentication()`; None stands for its `false`, after which the browser is on the login page. */
    method CheckAuthentication() returns (token: Option<string>)
      modifies this`href
      ensures token == FindToken(LocalMode(), cookie, Stored())
      ensures token.None? ==> href == LoginPath
      ensures token.Some? ==> href == old(href)
    {
      if LocalMode() {
        token := Stored();
      } else {
        token := ScanCookies(cookie);
        if !Truthy(token) {
          token := Stored();
        }
      }
      if !Truthy(token) {
        href := LoginPath;
        return None;
      }
    }

    /**
     * `authenticatedFetch(url, options)`: no token, no request; otherwise the
     * token rides in an Authorization header (local mode) or the request is
     * made with credentials, and a 401 clears the stored token.
     * `sent` is the request handed to `server`, if any.
     */
    method AuthenticatedFetch(url: string, options: FetchOptions, server: Request -> Reply)
      returns (r: FetchOutcome, sent: Option<Request>)
      modifies this`href, this`storage, options
      ensures var token := FindToken(LocalMode(), cookie, old(Stored()));
        && (token.None? ==>
              && r == Null && sent.None? && href == LoginPath
              && storage == old(storage) && unchanged(options))
        && (token.Some? && LocalMode() ==>
              && options.headers == old(options.headers)[AuthorizationHeader := Bearer(token.value)]
              && options.credentials == old(options.credentials))
        && (token.Some? && !LocalMode() ==>
              && options.headers == old(options.headers)
              && options.credentials == Some(IncludeCredentials))
        && (token.Some? ==>
              && sent == Some(Request(url, options.headers, options.credentials))
              && match server(sent.value)
                 case NetworkError => r == Thrown && storage == old(storage) && href == old(href)
                 case Answered(status) =>
                   if status == 401 then r == Null && storage == old(storage) - {JwtKey} && href == LoginPath
                   else r == Returned(status) && storage == old(storage) && href == old(href))
    {
      sent := None;
      var token := CheckAuthentication();
      if token.None? {
        return Null, None;
      }
      if LocalMode() {
        options.headers := options.headers[AuthorizationHeader := Bearer(token.value)];
      } else {
        options.credentials := Some(IncludeCredentials);
      }
      var request := Request(url, options.headers, options.credentials);
      sent := Some(request);
      match server(request)
      case NetworkError =>
        r := Thrown;
      case Answered(status) =>
        if status == 401 {
          storage := storage - {JwtKey};
          href := LoginPath;
          r := Null;
        } else {
          r := Returned(status);
        }
    }
  }
}
