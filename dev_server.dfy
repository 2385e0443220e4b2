/** The development server's authentication middleware: a cookie parser and an
    in-memory session table behind three endpoints; every other request passes
    through to the next handler. */
module DevServer {
  import opened Base
  import opened Text

  // ---------------------------------------------------------------- cookies

  /** One `name=value` piece of a Cookie header: split at the first `=`, both sides
      trimmed. Without any `=`, `indexOf` gives -1, so the name is the piece minus its
      last character and the value is the whole piece. */
  function ParsePair(pair: string): (string, string)
  {
    var idx := IndexOf(pair, '=');
    (Trim(Slice(pair, 0, idx)), Trim(Slice(pair, idx + 1, |pair|)))
  }

  /** Every piece of the header, parsed. */
  function ParsedPairs(pairs: seq<string>): (r: seq<(string, string)>)
    ensures |r| == |pairs|
  {
    if pairs == [] then [] else [ParsePair(pairs[0])] + ParsedPairs(pairs[1..])
  }

  /** Piece `k` parsed is `ParsePair` of piece `k`. */
  lemma {:induction false} ParsedPairAt(pairs: seq<string>, k: nat)
    requires k < |pairs|
    ensures ParsedPairs(pairs)[k] == ParsePair(pairs[k])
  {
    if k > 0 {
      ParsedPairAt(pairs[1..], k - 1);
    }
  }

  /** The cookies of the first `n` parsed pieces: an empty name is skipped and a
      later piece overwrites an earlier one of the same name. */
  function CookiesOf(kvs: seq<(string, string)>, n: nat): map<string, string>
    requires n <= |kvs|
  {
    if n == 0 then map[]
    else
      var m := CookiesOf(kvs, n - 1);
      if kvs[n - 1].0 != "" then m[kvs[n - 1].0 := kvs[n - 1].1] else m
  }

  /** One more piece: its cookie is added, unless its name is empty. */
  lemma CookiesStep(kvs: seq<(string, string)>, i: nat, k: string, v: string)
    requires i < |kvs| && kvs[i] == (k, v)
    ensures CookiesOf(kvs, i + 1) == if k != "" then CookiesOf(kvs, i)[k := v] else CookiesOf(kvs, i)
  {
  }

  /** `parseCookies(header)`. */
  function Cookies(header: string): map<string, string>
  {
    if header == "" then map[]
    else
      var kvs := ParsedPairs(Split(header, ';'));
      CookiesOf(kvs, |kvs|)
  }

  /** `parseCookies`. */
  method ParseCookies(header: string) returns (out: map<string, string>)
    ensures out == Cookies(header)
  {
    if header == "" {
      out := map[];
    } else {
      out := CollectPairs(Split(header, ';'));
    }
  }

  /** The body of the `forEach`: the name and the value of one piece. */
  method ReadPair(pair: string) returns (k: string, v: string)
    ensures (k, v) == ParsePair(pair)
  {
    var idx := IndexOf(pair, '=');
    k := Trim(Slice(pair, 0, idx));
    v := Trim(Slice(pair, idx + 1, |pair|));
  }

  /** The `forEach` over the `;`-separated pieces. */
  method CollectPairs(pairs: seq<string>) returns (out: map<string, string>)
    ensures out == CookiesOf(ParsedPairs(pairs), |pairs|)
  {
    ghost var kvs := ParsedPairs(pairs);
    out := map[];
    var i := 0;
    while i < |pairs|
      invariant 0 <= i <= |pairs|
      invariant out == CookiesOf(kvs, i)
    {
      var k, v := ReadPair(pairs[i]);
      ParsedPairAt(pairs, i);
      CookiesStep(kvs, i, k, v);
      if k != "" {
        out := out[k := v];
      }
      i := i + 1;
    }
  }

  /** A blank header has no cookies. */
  lemma NoHeaderNoCookies()
    ensures Cookies("") == map[]
  {
  }

  /** The split is at the first `=`: the value may itself contain `=`. */
  lemma PairSplitsAtFirstEquals(name: string, value: string)
    requires '=' !in name
    ensures ParsePair(name + "=" + value) == (Trim(name), Trim(value))
  {
    var p := name + "=" + value;
    assert p[..|name|] == name;
    assert p[|name| + 1..] == value;
    IndexOfFirst(p, '=', |name|);
    assert Slice(p, 0, |name|) == name;
    assert Slice(p, |name| + 1, |p|) == value;
  }

  /** A piece without `=` is read as a cookie named by all but its last character. */
  lemma PairWithoutEquals(pair: string)
    requires '=' !in pair && |pair| >= 1
    ensures ParsePair(pair) == (Trim(pair[..|pair| - 1]), Trim(pair))
  {
    assert pair[0..|pair|] == pair;
  }

  /** No cookie has an empty name, and a name is present exactly when one of the
      pieces carries it. */
  lemma {:induction false} CookieNames(kvs: seq<(string, string)>, n: nat)
    requires n <= |kvs|
    ensures "" !in CookiesOf(kvs, n)
    ensures forall k :: k in CookiesOf(kvs, n) <==> k != "" && exists j :: 0 <= j < n && kvs[j].0 == k
  {
    if n > 0 {
      CookieNames(kvs, n - 1);
    }
  }

  /** The last piece with a name decides its value. */
  lemma {:induction false} LaterPairWins(kvs: seq<(string, string)>, n: nat, j: nat)
    requires j < n <= |kvs| && kvs[j].0 != ""
    requires forall i :: j < i < n ==> kvs[i].0 != kvs[j].0
    ensures kvs[j].0 in CookiesOf(kvs, n) && CookiesOf(kvs, n)[kvs[j].0] == kvs[j].1
  {
    if n - 1 != j {
      LaterPairWins(kvs, n - 1, j);
    }
  }

  /** The header `name=value` has no `;` when neither side has one. */
  lemma NoSeparatorInPair(name: string, value: string, header: string)
    requires ';' !in name && ';' !in value
    requires header == name + "=" + value
    ensures ';' !in header
  {
    assert forall i :: 0 <= i < |header| ==>
      header[i] == (if i < |name| then name[i] else if i == |name| then '=' else value[i - |name| - 1]);
  }

  /** A header of one `name=value` cookie holds just that cookie. */
  lemma SingleCookie(name: string, value: string, header: string)
    requires name != "" && Trim(name) == name && Trim(value) == value
    requires '=' !in name && ';' !in name && ';' !in value
    requires header == name + "=" + value
    ensures Cookies(header) == map[name := value]
  {
    NoSeparatorInPair(name, value, header);
    SplitWithout(header, ';');
    PairSplitsAtFirstEquals(name, value);
    var kvs := ParsedPairs([header]);
    ParsedPairAt([header], 0);
    assert kvs == [(name, value)];
    assert CookiesOf(kvs, 1) == map[name := value];
  }

  /** "session" is a cookie name that parses back to itself. */
  lemma SessionName()
    ensures "session" != "" && Trim("session") == "session"
    ensures '=' !in "session" && ';' !in "session"
  {
    TrimOfTrimmed("session");
  }

  /** The cookie the server sets is read back from the header the browser then
      sends. */
  lemma SessionCookieReadBack(sid: string)
    requires sid != "" && ';' !in sid && Trim(sid) == sid
    ensures Cookies("session=" + sid) == map["session" := sid]
  {
    var h := "session=" + sid;
    assert h == "session" + "=" + sid;
    SessionName();
    SingleCookie("session", sid, h);
  }

  // ---------------------------------------------------------------- endpoints

  /** What a session remembers of the user. */
  datatype SessionUser = SessionUser(id: string, firstName: string)

  /** The body of `/api/auth/validate-token` once parsed, each field as the code
      coerces it to a string ("" for a missing or empty one). */
  datatype TokenBody = TokenBody(token: string, userId: string, firstName: string)

  datatype Request = Request(url: string, verb: string, cookie: Option<string>)

  datatype Reply =
    | BadRequest                        // 400
    | SessionCreated(setCookie: string) // 200 with `{ ok: true }`
    | Unauthorized                      // 401
    | CurrentUser(user: SessionUser)    // 200 with the user as JSON
    | LoggedOut(setCookie: string)      // 200 "OK"
    | PassThrough                       // handed to the next middleware

  function SessionCookie(sid: string): string
  {
    "session=" + sid + "; HttpOnly; Path=/; SameSite=Lax"
  }

  const ClearedCookie := "session=; HttpOnly; Path=/; SameSite=Lax; Max-Age=0"

  /** `cookies["session"]`, "" when absent. */
  function SessionIdOf(cookies: map<string, string>): string
  {
    if "session" in cookies then cookies["session"] else ""
  }

  class AuthMiddleware {
    /** Session id to user; lives as long as the server. */
    var sessions: map<string, SessionUser>

    constructor ()
      ensures sessions == map[]
    {
      sessions := map[];
    }

    /** `POST /api/auth/validate-token`: a body that does not parse, or that lacks the
        token, the user id or the first name, is refused; otherwise a session under
        the fresh id `sid` is stored and its cookie set. */
    method ValidateToken(body: Option<TokenBody>, sid: string) returns (reply: Reply)
      modifies this
      ensures (body.None? || body.value.token == "" || body.value.userId == "" || body.value.firstName == "") ==>
        reply == BadRequest && sessions == old(sessions)
      ensures (body.Some? && body.value.token != "" && body.value.userId != "" && body.value.firstName != "") ==>
        reply == SessionCreated(SessionCookie(sid))
        && sessions == old(sessions)[sid := SessionUser(body.value.userId, body.value.firstName)]
    {
      if body.None? {
        return BadRequest;
      }
      var data := body.value;
      if data.token == "" || data.userId == "" || data.firstName == "" {
        return BadRequest;
      }
      sessions := sessions[sid := SessionUser(data.userId, data.firstName)];
      reply := SessionCreated(SessionCookie(sid));
    }

    /** `GET /api/session/me`: the user of the session the cookie names, else 401. */
    method Me(cookie: Option<string>) returns (reply: Reply)
      ensures var sid := SessionIdOf(Cookies(if cookie.Some? then cookie.value else ""));
        reply == if sid != "" && sid in sessions then CurrentUser(sessions[sid]) else Unauthorized
    {
      var cookies := ParseCookies(if cookie.Some? then cookie.value else "");
      var sid := SessionIdOf(cookies);
      if sid == "" || sid !in sessions {
        return Unauthorized;
      }
      reply := CurrentUser(sessions[sid]);
    }

    /** `POST /api/logout`: the named session, if any, is dropped and the cookie
        cleared. */
    method Logout(cookie: Option<string>) returns (reply: Reply)
      modifies this
      ensures reply == LoggedOut(ClearedCookie)
      ensures var sid := SessionIdOf(Cookies(if cookie.Some? then cookie.value else ""));
        sessions == if sid != "" then old(sessions) - {sid} else old(sessions)
    {
      var cookies := ParseCookies(if cookie.Some? then cookie.value else "");
      var sid := SessionIdOf(cookies);
      if sid != "" {
        sessions := sessions - {sid};
      }
      reply := LoggedOut(ClearedCookie);
    }

    /** The middleware: exact url and method select an endpoint; anything else,
        a query string included, passes through untouched. */
    method Handle(req: Request, body: Option<TokenBody>, sid: string) returns (reply: Reply)
      modifies this
      ensures !IsEndpoint(req) ==> reply == PassThrough && sessions == old(sessions)
      ensures req.url == "/api/session/me" && req.verb == "GET" ==> sessions == old(sessions) && !reply.SessionCreated?
      ensures reply.SessionCreated? ==> req.url == "/api/auth/validate-token" && req.verb == "POST"
    {
      if req.url == "/api/auth/validate-token" && req.verb == "POST" {
        reply := ValidateToken(body, sid);
      } else if req.url == "/api/session/me" && req.verb == "GET" {
        reply := Me(req.cookie);
      } else if req.url == "/api/logout" && req.verb == "POST" {
        reply := Logout(req.cookie);
      } else {
        reply := PassThrough;
      }
    }
  }

  predicate IsEndpoint(req: Request)
  {
    (req.url == "/api/auth/validate-token" && req.verb == "POST")
    || (req.url == "/api/session/me" && req.verb == "GET")
    || (req.url == "/api/logout" && req.verb == "POST")
  }

  /** A login, then `me` with the cookie it set, returns the user; a logout with that
      cookie ends the session, and `me` is refused afterwards. */
  method SessionLifecycle(m: AuthMiddleware, token: string, userId: string, firstName: string, sid: string)
      returns (first: Reply, afterLogout: Reply)
    requires token != "" && userId != "" && firstName != ""
    requires sid != "" && ';' !in sid && '=' !in sid && Trim(sid) == sid
    modifies m
    ensures first == CurrentUser(SessionUser(userId, firstName))
    ensures afterLogout == Unauthorized
    ensures m.sessions == old(m.sessions) - {sid}
  {
    var header := "session=" + sid;
    SessionCookieReadBack(sid);
    assert SessionIdOf(Cookies(header)) == sid;
    var created := m.ValidateToken(Some(TokenBody(token, userId, firstName)), sid);
    assert m.sessions[sid] == SessionUser(userId, firstName);
    first := m.Me(Some(header));
    var out := m.Logout(Some(header));
    assert sid !in m.sessions;
    afterLogout := m.Me(Some(header));
  }
}
