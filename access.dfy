/** middleware/auth.js: `authenticateToken` reads the bearer token of the Authorization
    header, lets jsonwebtoken check it, and admits the request only if a live session holds
    that token; `authorize(...roles)` admits a user whose role is listed. */
module Access {
  import opened Common
  import opened Schema
  import opened Responses

  /** The bearer token of an Authorization header (middleware/auth.js:8, and the same
      expression in controllers/authController.js:99): the second space-separated word, if
      there is one. A missing or empty header gives no token. */
  function BearerToken(authorization: Option<string>): (t: Option<string>)
    ensures authorization.None? ==> t.None?
  {
    if authorization.None? then None
    else
      var parts := Split(authorization.value, ' ');
      if |parts| >= 2 then Some(parts[1]) else None
  }

  /** "Bearer <token>" yields the token, whatever the first word is. */
  lemma BearerRoundTrip(scheme: string, token: string)
    requires ' ' !in scheme && ' ' !in token
    ensures BearerToken(Some(scheme + " " + token)) == Some(token)
  {
    SplitFirst(scheme, ' ', token);
    assert scheme + " " + token == scheme + [' '] + token;
    assert Split(token, ' ') == [token];
  }

  /** A header without a space carries no token. */
  lemma NoSpaceNoToken(header: string)
    requires ' ' !in header
    ensures BearerToken(Some(header)).None?
  {
  }

  /** What `jwt.verify` did with the token: it returned, or it threw an error with this
      `name` (the rest of the error is what `error()` may show in development). */
  datatype JwtCheck = Verified | Threw(name: string, err: ErrorDetail)

  /** The row of `Session.findOne` with this token, `isActive` true and `expiresAt > now`. */
  predicate Live(s: Session, token: string, now: int) {
    s.token == token && s.isActive && s.expiresAt > now
  }

  function LiveWith(token: string, now: int): Session -> bool {
    (s: Session) => Live(s, token, now)
  }

  /** The first live session holding the token. */
  function LiveSession(sessions: Table<Session>, token: string, now: int): (r: Option<Row<Session>>)
    ensures r.Some? ==> r.value in sessions && Live(r.value.val, token, now)
    ensures r.None? <==> forall i | 0 <= i < |sessions| :: !Live(sessions[i].val, token, now)
  {
    var hits := Where(sessions, LiveWith(token, now));
    if hits == [] then None else Some(hits[0])
  }

  /** The outcome of a middleware: `next()` with what it attached to the request, or the
      reply it sent. */
  datatype Gate = Proceed(user: Option<Row<User>>, session: Option<Row<Session>>)
                | Stop(reply: Response<Row<User>>)

  /** `authenticateToken`, with `check` the behaviour of `jwt.verify` on the token and
      `now` the clock. The user attached is the session's user with its id, email, role
      and name. */
  function Authenticate(db: Db, authorization: Option<string>, check: JwtCheck, now: int,
                        nodeEnv: Option<string>): (g: Gate)
    ensures g.Proceed? <==>
              && Truthy(BearerToken(authorization)) && check.Verified?
              && exists i | 0 <= i < |db.sessions| :: Live(db.sessions[i].val, BearerToken(authorization).value, now)
    ensures g.Proceed? ==>
              && g.session.Some? && g.session.value in db.sessions
              && Live(g.session.value.val, BearerToken(authorization).value, now)
              && g.user == UserOf(db.users, g.session.value.val.userId)
    ensures g.Stop? && !Truthy(BearerToken(authorization)) ==>
              g.reply == Unauthorized(Some("Access token tidak ditemukan"))
  {
    var token := BearerToken(authorization);
    if !Truthy(token) then Stop(Unauthorized(Some("Access token tidak ditemukan")))
    else match check
      case Threw(name, err) =>
        if name == "JsonWebTokenError" then Stop(Unauthorized(Some("Token tidak valid")))
        else if name == "TokenExpiredError" then Stop(Unauthorized(Some("Token sudah expired")))
        else Stop(ErrorReply("Error saat autentikasi", Some(500), Some(err), nodeEnv))
      case Verified =>
        match LiveSession(db.sessions, token.value, now)
        case None => Stop(Unauthorized(Some("Token tidak valid atau sudah expired")))
        case Some(s) => Proceed(UserOf(db.users, s.val.userId), Some(s))
  }

  /** A token jsonwebtoken accepts is still refused, with 401, when no session holding it
      is active and unexpired. */
  lemma NoLiveSessionRefused(db: Db, authorization: Option<string>, now: int, nodeEnv: Option<string>)
    requires Truthy(BearerToken(authorization))
    requires forall i | 0 <= i < |db.sessions| :: !Live(db.sessions[i].val, BearerToken(authorization).value, now)
    ensures Authenticate(db, authorization, Verified, now, nodeEnv)
            == Stop(Unauthorized(Some("Token tidak valid atau sudah expired")))
  {
  }

  /** The errors jsonwebtoken throws map to 401 by their name; any other error to 500. */
  lemma JwtErrors(db: Db, authorization: Option<string>, name: string, err: ErrorDetail, now: int,
                  nodeEnv: Option<string>)
    requires Truthy(BearerToken(authorization))
    ensures var g := Authenticate(db, authorization, Threw(name, err), now, nodeEnv);
            && g.Stop?
            && (g.reply.status == 401 <==> name == "JsonWebTokenError" || name == "TokenExpiredError")
            && (g.reply.status == 500 <==> name != "JsonWebTokenError" && name != "TokenExpiredError")
            && (name == "JsonWebTokenError" ==> g.reply.body.message == Some("Token tidak valid"))
            && (name == "TokenExpiredError" ==> g.reply.body.message == Some("Token sudah expired"))
            && (g.reply.status == 500 ==> g.reply.body.message == Some("Error saat autentikasi"))
  {
  }

  /** `authorize(...roles)`: no user gives the default 401, a role outside the list 403. */
  function Authorize(user: Option<Row<User>>, roles: seq<string>): (g: Gate)
    ensures g.Proceed? <==> user.Some? && user.value.val.role in roles
    ensures g.Proceed? ==> g.user == user
    ensures g.Stop? && user.None? ==> g.reply.status == 401 && g.reply.body.message == Some("Unauthorized")
    ensures g.Stop? && user.Some? ==>
              g.reply.status == 403 && g.reply.body.message == Some("Akses ditolak. Role tidak sesuai")
  {
    if user.None? then Stop(Unauthorized(None))
    else if user.value.val.role !in roles then Stop(Forbidden(Some("Akses ditolak. Role tidak sesuai")))
    else Proceed(user, None)
  }

  /** `authenticateToken` followed by `authorize(...roles)`: the request reaches the handler
      exactly when a live session holds the presented token and belongs to an existing user
      whose role is listed. */
  lemma GuardedRoute(db: Db, authorization: Option<string>, now: int, roles: seq<string>)
    requires Truthy(BearerToken(authorization))
    ensures var a := Authenticate(db, authorization, Verified, now, None);
            (a.Proceed? && Authorize(a.user, roles).Proceed?) <==>
              exists i | 0 <= i < |db.sessions| ::
                && Live(db.sessions[i].val, BearerToken(authorization).value, now)
                && a.session == Some(db.sessions[i])
                && HasId(db.users, db.sessions[i].val.userId)
                && UserOf(db.users, db.sessions[i].val.userId).value.val.role in roles
  {
    var a := Authenticate(db, authorization, Verified, now, None);
    if a.Proceed? {
      var s := a.session.value;
      var i :| 0 <= i < |db.sessions| && db.sessions[i] == s;
      assert Live(db.sessions[i].val, BearerToken(authorization).value, now);
    }
  }
}
