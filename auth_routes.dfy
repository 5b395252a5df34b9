/**
 * backend/src/routes/auth-routes.ts: `login`, `logout` and `me` over the
 * session store, and the `session_id` cookie they set and read (a cookie
 * in the sense of section 4.1 of RFC 6265: `name=value` followed by
 * attributes). The password check (argon2 `verify`) is the foreign
 * predicate `verify(password, hash)`; the 32 random bytes of a new session
 * id and the clock are parameters.
 */
module AuthRoutes {
  import opened Base
  import opened Types
  import opened Auth
  import opened Http

  // ---------------------------------------------------------------------
  // The session cookie
  // ---------------------------------------------------------------------

  const CookieName := "session_id="

  /** `24 * 60 * 60`: the cookie lives as long as a session does without activity. */
  const CookieMaxAge := 24 * 60 * 60

  /** The `Set-Cookie` value of a successful login. */
  function LoginCookie(id: string): string {
    CookieName + id + "; HttpOnly; Secure; SameSite=Strict; Path=/; Max-Age=86400"
  }

  /** The `Set-Cookie` value of a logout: an empty value that expires at once. */
  const LogoutCookie := "session_id=; HttpOnly; Secure; SameSite=Strict; Path=/; Max-Age=0"

  /** `/session_id=([^;]+)/` matches at `i`: the name, then at least one character other than `;`. */
  predicate CookieAt(s: string, i: nat) {
    i + |CookieName| < |s| && s[i..i + |CookieName|] == CookieName && s[i + |CookieName|] != ';'
  }

  /** Where the run of characters other than `;` that starts at `j` ends. */
  function RunEnd(s: string, j: nat): (e: nat)
    requires j <= |s|
    ensures j <= e <= |s|
    ensures forall m :: j <= m < e ==> s[m] != ';'
    ensures e < |s| ==> s[e] == ';'
    decreases |s| - j
  {
    if j == |s| || s[j] == ';' then j else RunEnd(s, j + 1)
  }

  /** The first group of the leftmost match at or after `i`. */
  function MatchFrom(s: string, i: nat): Option<string>
    decreases |s| - i
  {
    if i + |CookieName| >= |s| then None
    else if CookieAt(s, i) then Some(s[i + |CookieName|..RunEnd(s, i + |CookieName|)])
    else MatchFrom(s, i + 1)
  }

  /** `cookie?.match(/session_id=([^;]+)/)?.[1]`. */
  function SessionIdOf(cookie: Option<string>): Option<string> {
    match cookie
    case None => None
    case Some(s) => MatchFrom(s, 0)
  }

  // ---------------------------------------------------------------------
  // The handlers as functions of the session map
  // ---------------------------------------------------------------------

  function Unauthorized(message: string): Response {
    JsonResponse(401, ErrorJson("Unauthorized", message))
  }

  const LoginFailed := JsonResponse(500, ErrorJson("Internal Server Error", "Login failed"))
  const CredentialsRequired := JsonResponse(400, ErrorJson("Bad Request", "Username and password required"))
  const InvalidCredentials := Unauthorized("Invalid credentials")

  /**
   * `login(req)` with the sessions before the request: the response and the
   * sessions after it. A body that does not parse is the caught error. The
   * password reaches argon2's `verify`, which takes only a string or a byte
   * array; a JSON body holds no byte array, so a truthy non-string password
   * makes it throw, and `verifyPassword`'s catch answers false.
   */
  function LoginAnswer(sessions: map<string, Session>, config: Config, verify: (string, string) -> bool,
                       req: Request, random: seq<byte>, now: int): (Response, map<string, Session>)
  {
    match req.json
    case None => (LoginFailed, sessions)
    case Some(body) =>
      var username, password := ArgOf(body, "username"), ArgOf(body, "password");
      if username.Missing? || password.Missing? then (CredentialsRequired, sessions)
      else if username != Str(config.adminUsername) || !password.Str? || !verify(password.s, config.adminPasswordHash) then
        (InvalidCredentials, sessions)
      else
        var id := HexOfBytes(random);
        (Response(200, JsonType["Set-Cookie" := LoginCookie(id)],
                  JsonBody(JObj([("success", JBool(true)), ("username", JStr(username.s))]))),
         sessions[id := Session(id, username.s, now, now)])
  }

  const LoggedOut := Response(200, JsonType["Set-Cookie" := LogoutCookie], JsonBody(JObj([("success", JBool(true))])))

  /** The sessions after `logout(req)`: the cookie's session, if it names one, is gone. */
  function LogoutSessions(sessions: map<string, Session>, req: Request): map<string, Session> {
    match SessionIdOf(Header(req, "cookie"))
    case None => sessions
    case Some(id) => sessions - {id}
  }

  /** `me(req)` at `now`: looking the session up refreshes or drops it. */
  function MeAnswer(sessions: map<string, Session>, req: Request, now: int): (Response, map<string, Session>) {
    match SessionIdOf(Header(req, "cookie"))
    case None => (Unauthorized("No session"), sessions)
    case Some(id) =>
      var (session, after) := Lookup(sessions, id, now);
      if session.None? then (Unauthorized("Invalid session"), after)
      else (JsonResponse(200, JObj([("username", JStr(session.value.username))])), after)
  }

  // ---------------------------------------------------------------------
  // The handlers
  // ---------------------------------------------------------------------

  class AuthRoutes {
    const store: SessionStore
    const config: Config
    const verify: (string, string) -> bool

    constructor(store: SessionStore, config: Config, verify: (string, string) -> bool)
      ensures this.store == store && this.config == config && this.verify == verify
    {
      this.store := store;
      this.config := config;
      this.verify := verify;
    }

    /** `POST /api/auth/login`; `random` stands for `randomBytes(32)`. */
    method Login(req: Request, random: seq<byte>, now: int) returns (r: Response)
      requires store.Valid() && |random| == 32
      modifies store
      ensures (r, store.sessions) == LoginAnswer(old(store.sessions), config, verify, req, random, now)
      ensures store.Valid()
    {
      if req.json.None? {
        return LoginFailed;
      }
      var username, password := ArgOf(req.json.value, "username"), ArgOf(req.json.value, "password");
      if username.Missing? || password.Missing? {
        return CredentialsRequired;
      }
      if username != Str(config.adminUsername) || !password.Str? || !verify(password.s, config.adminPasswordHash) {
        return InvalidCredentials;
      }
      var sessionId := store.CreateSession(username.s, random, now);
      var headers := JsonType["Set-Cookie" := LoginCookie(sessionId)];
      r := Response(200, headers, JsonBody(JObj([("success", JBool(true)), ("username", JStr(username.s))])));
    }

    /** `POST /api/auth/logout`: always 200 with an expiring cookie. */
    method Logout(req: Request) returns (r: Response)
      requires store.Valid()
      modifies store
      ensures r.status == 200 && r.headers == JsonType["Set-Cookie" := LogoutCookie]
      ensures r == LoggedOut
      ensures store.sessions == LogoutSessions(old(store.sessions), req)
      ensures store.Valid()
    {
      var sessionId := SessionIdOf(Header(req, "cookie"));
      if sessionId.Some? {
        store.DestroySession(sessionId.value);
      }
      r := LoggedOut;
    }

    /** `GET /api/auth/me`. */
    method Me(req: Request, now: int) returns (r: Response)
      requires store.Valid()
      modifies store
      ensures (r, store.sessions) == MeAnswer(old(store.sessions), req, now)
      ensures store.Valid()
    {
      var sessionId := SessionIdOf(Header(req, "cookie"));
      if sessionId.None? {
        return Unauthorized("No session");
      }
      var session := store.GetSession(sessionId.value, now);
      if session.None? {
        return Unauthorized("Invalid session");
      }
      r := JsonResponse(200, JObj([("username", JStr(session.value.username))]));
    }
  }

  // ---------------------------------------------------------------------
  // Properties of the cookie
  // ---------------------------------------------------------------------

  /**
   * The id is taken from the leftmost place where `session_id=` is followed
   * by a character other than `;`, and is the whole run of such characters
   * there: non-empty and without `;`. There is none exactly when no place
   * matches.
   */
  lemma {:induction false} MatchFromLeftmost(s: string, i: nat)
    ensures MatchFrom(s, i).None? <==> forall p :: i <= p ==> !CookieAt(s, p)
    ensures MatchFrom(s, i).Some? ==>
      MatchFrom(s, i).value != "" && ';' !in MatchFrom(s, i).value
      && exists p :: i <= p && CookieAt(s, p) && (forall q :: i <= q < p ==> !CookieAt(s, q))
                     && MatchFrom(s, i).value == s[p + |CookieName|..RunEnd(s, p + |CookieName|)]
    decreases |s| - i
  {
    if i + |CookieName| >= |s| {
      forall p | i <= p ensures !CookieAt(s, p) {
      }
    } else if CookieAt(s, i) {
      var j := i + |CookieName|;
      var v := s[j..RunEnd(s, j)];
      assert v[0] == s[j];
      forall c | c in v ensures c != ';' {
        var m :| 0 <= m < |v| && v[m] == c;
        assert v[m] == s[j + m];
      }
    } else {
      MatchFromLeftmost(s, i + 1);
      forall p | i <= p && CookieAt(s, p) ensures i + 1 <= p {
      }
      if MatchFrom(s, i).Some? {
        var p :| i + 1 <= p && CookieAt(s, p) && (forall q :: i + 1 <= q < p ==> !CookieAt(s, q))
                 && MatchFrom(s, i).value == s[p + |CookieName|..RunEnd(s, p + |CookieName|)];
        assert forall q :: i <= q < p ==> !CookieAt(s, q);
      }
    }
  }

  /** `RunEnd` stops at the first `;`, or at the end. */
  lemma RunEndAt(s: string, j: nat, e: nat)
    requires j <= e <= |s|
    requires forall m :: j <= m < e ==> s[m] != ';'
    requires e < |s| ==> s[e] == ';'
    ensures RunEnd(s, j) == e
  {
  }

  /**
   * The cookie a browser sends back after a login, `session_id=<id>`,
   * alone or followed by further cookies, yields the id again.
   */
  lemma CookieRoundTrip(id: string, rest: string)
    requires id != "" && ';' !in id
    requires rest == "" || rest[0] == ';'
    ensures SessionIdOf(Some(CookieName + id + rest)) == Some(id)
  {
    var s := CookieName + id + rest;
    var j := |CookieName|;
    assert s[..j] == CookieName;
    assert s[j] == id[0];
    forall m | j <= m < j + |id| ensures s[m] != ';' {
      assert s[m] == id[m - j];
    }
    if rest != "" {
      assert s[j + |id|] == rest[0];
    }
    RunEndAt(s, j, j + |id|);
    assert CookieAt(s, 0);
    assert s[j..j + |id|] == id;
  }

  /** A new session id is 64 hexadecimal digits, so it survives the round trip. */
  lemma HexIdIsCookieValue(random: seq<byte>)
    requires |random| == 32
    ensures var id := HexOfBytes(random); id != "" && ';' !in id
  {
    var id := HexOfBytes(random);
    assert id[0] in id;
    forall c | c in id ensures c != ';' {
      var m :| 0 <= m < |id| && id[m] == c;
    }
  }

  /**
   * The pattern is not anchored at a cookie boundary: `session_id=` inside
   * another cookie's name is matched too, and taken when it comes first.
   */
  lemma MatchInsideAnotherName()
    ensures SessionIdOf(Some("x_session_id=evil; session_id=real")) == Some("evil")
  {
    var s := "x_session_id=evil; session_id=real";
    EvilCookieShape();
    assert !CookieAt(s, 0) && !CookieAt(s, 1);
    assert CookieAt(s, 2);
    RunEndAt(s, 13, 17);
    assert MatchFrom(s, 0) == MatchFrom(s, 1) == MatchFrom(s, 2);
  }

  lemma EvilCookieShape()
    ensures var s := "x_session_id=evil; session_id=real";
      |s| == 34 && s[0] == 'x' && s[1] == '_' && CookieName[0] == 's'
      && s[2..13] == CookieName && s[13..17] == "evil" && s[13] == 'e' && s[17] == ';'
  {
    var s := "x_session_id=evil; session_id=real";
    assert s == "x_" + CookieName + "evil" + "; " + CookieName + "real";
  }

  // ---------------------------------------------------------------------
  // Properties of login, logout and me
  // ---------------------------------------------------------------------

  /**
   * `login` fails in this order, creating no session: an unreadable body
   * (500), a missing or empty username or password (400), then a wrong
   * username, a non-string password or a password `verify` rejects (401).
   */
  lemma LoginRejections(sessions: map<string, Session>, config: Config, verify: (string, string) -> bool,
                        req: Request, random: seq<byte>, now: int)
    ensures var (r, after) := LoginAnswer(sessions, config, verify, req, random, now);
      (req.json.None? ==> r.status == 500 && after == sessions)
      && (req.json.Some? ==>
            var username, password := ArgOf(req.json.value, "username"), ArgOf(req.json.value, "password");
            (username.Missing? || password.Missing? ==> r == CredentialsRequired && r.status == 400 && after == sessions)
            && (!username.Missing? && !password.Missing? && username != Str(config.adminUsername) ==>
                  r == InvalidCredentials && r.status == 401 && after == sessions)
            && (password.NonString? && !username.Missing? ==>
                  r == InvalidCredentials && r.status == 401 && after == sessions)
            && (password.Str? && !verify(password.s, config.adminPasswordHash) && !username.Missing? ==>
                  r == InvalidCredentials && r.status == 401 && after == sessions))
  {
  }

  /**
   * A successful login adds exactly one session, for the admin user, under
   * the id it sets in the cookie, and answers 200.
   */
  lemma LoginSucceeds(sessions: map<string, Session>, config: Config, verify: (string, string) -> bool,
                      req: Request, random: seq<byte>, now: int)
    requires |random| == 32
    requires req.json.Some? && ArgOf(req.json.value, "username") == Str(config.adminUsername)
    requires ArgOf(req.json.value, "password").Str?
    requires verify(ArgOf(req.json.value, "password").s, config.adminPasswordHash)
    ensures var (r, after) := LoginAnswer(sessions, config, verify, req, random, now);
      var id := HexOfBytes(random);
      r.status == 200 && r.headers["Set-Cookie"] == LoginCookie(id) && r.headers["Content-Type"] == "application/json"
      && after.Keys == sessions.Keys + {id}
      && after[id] == Session(id, config.adminUsername, now, now)
      && (forall other :: other in sessions && other != id ==> after[other] == sessions[other])
      && SessionIdOf(Some(CookieName + id)) == Some(id)
  {
    var id := HexOfBytes(random);
    var username := ArgOf(req.json.value, "username");
    assert LoginAnswer(sessions, config, verify, req, random, now)
        == (Response(200, JsonType["Set-Cookie" := LoginCookie(id)],
                     JsonBody(JObj([("success", JBool(true)), ("username", JStr(username.s))]))),
            sessions[id := Session(id, config.adminUsername, now, now)]);
    CookieHeaders(LoginCookie(id));
    SessionAdded(sessions, id, Session(id, config.adminUsername, now, now));
    HexIdIsCookieValue(random);
    CookieRoundTrip(id, "");
    assert CookieName + id + "" == CookieName + id;
  }

  lemma CookieHeaders(cookie: string)
    ensures var h := JsonType["Set-Cookie" := cookie];
      h["Set-Cookie"] == cookie && h["Content-Type"] == "application/json"
  {
  }

  lemma SessionAdded(sessions: map<string, Session>, id: string, session: Session)
    ensures var after := sessions[id := session];
      after.Keys == sessions.Keys + {id} && after[id] == session
      && forall other :: other in sessions && other != id ==> after[other] == sessions[other]
  {
  }

  /**
   * Logged in, then asked who: the cookie of a successful login, sent back
   * within 24 hours, makes `me` answer 200 with the admin's name.
   */
  lemma LoginThenMe(sessions: map<string, Session>, config: Config, verify: (string, string) -> bool,
                    req: Request, random: seq<byte>, t: int, me: Request, t': int)
    requires |random| == 32
    requires req.json.Some? && ArgOf(req.json.value, "username") == Str(config.adminUsername)
    requires ArgOf(req.json.value, "password").Str?
    requires verify(ArgOf(req.json.value, "password").s, config.adminPasswordHash)
    requires Header(me, "cookie") == Some(CookieName + HexOfBytes(random))
    requires t <= t' <= t + SessionExpiry
    ensures var after := LoginAnswer(sessions, config, verify, req, random, t).1;
      MeAnswer(after, me, t').0 == JsonResponse(200, JObj([("username", JStr(config.adminUsername))]))
  {
    var id := HexOfBytes(random);
    LoginSucceeds(sessions, config, verify, req, random, t);
    CreatedSessionRetrievable(sessions, id, config.adminUsername, t, t');
  }

  /** After a logout with the session's cookie, `me` with that cookie answers "Invalid session". */
  lemma LogoutThenMe(sessions: map<string, Session>, req: Request, now: int)
    requires SessionIdOf(Header(req, "cookie")).Some?
    ensures MeAnswer(LogoutSessions(sessions, req), req, now).0 == Unauthorized("Invalid session")
  {
    DestroyedNotFound(sessions, SessionIdOf(Header(req, "cookie")).value, now);
  }

  /** A logout without a session id in the cookie leaves every session as it was. */
  lemma LogoutWithoutId(sessions: map<string, Session>, req: Request)
    requires Header(req, "cookie").None? || forall p :: 0 <= p ==> !CookieAt(Header(req, "cookie").value, p)
    ensures LogoutSessions(sessions, req) == sessions
  {
    if Header(req, "cookie").Some? {
      MatchFromLeftmost(Header(req, "cookie").value, 0);
    }
  }

  /**
   * `me`: no id is "No session" and changes nothing; an unknown id is
   * "Invalid session" and changes nothing; an expired one is "Invalid
   * session" and is dropped; a live one answers its user name and is
   * refreshed to `now`.
   */
  lemma MeOutcomes(sessions: map<string, Session>, req: Request, now: int)
    ensures var (r, after) := MeAnswer(sessions, req, now); var id := SessionIdOf(Header(req, "cookie"));
      (id.None? ==> r == Unauthorized("No session") && after == sessions)
      && (id.Some? && id.value !in sessions ==> r == Unauthorized("Invalid session") && after == sessions)
      && (id.Some? && id.value in sessions && Expired(sessions[id.value], now) ==>
            r == Unauthorized("Invalid session") && id.value !in after)
      && (id.Some? && id.value in sessions && !Expired(sessions[id.value], now) ==>
            r == JsonResponse(200, JObj([("username", JStr(sessions[id.value].username))]))
            && after[id.value] == sessions[id.value].(lastActivity := now))
  {
  }

  /** The cookie's lifetime, in seconds, is the session expiry. */
  lemma CookieLifetimeIsExpiry()
    ensures CookieMaxAge * 1000 == SessionExpiry
    ensures NatToString(CookieMaxAge) == "86400"
  {
    assert NatToString(86400) == "86400" by {
      assert NatToBase(86400, 10) == NatToBase(8640, 10) + [DigitChar(0)];
      assert NatToBase(8640, 10) == NatToBase(864, 10) + [DigitChar(0)];
      assert NatToBase(864, 10) == NatToBase(86, 10) + [DigitChar(4)];
      assert NatToBase(86, 10) == NatToBase(8, 10) + [DigitChar(6)];
      assert NatToBase(8, 10) == [DigitChar(8)];
    }
  }
}
