/** controllers/authController.js: login replaces every active session of the user by
    one new session (one device at a time), logout deactivates the presented token's
    session, and the session's expiry is computed from JWT_EXPIRES_IN. The token itself
    (`jwt.sign`), the password check (bcrypt) and the clock are parameters. */
module Auth {
  import opened Common
  import opened Schema
  import opened Responses
  import Access
  import Store

  // ---------------------------------------------------------------------------
  // getTokenExpiry

  /** `getTokenExpiry()` at time `now` (ms), with JWT_EXPIRES_IN defaulting to "1h": a
      setting containing 'h' adds parseInt of it in hours, else one containing 'm' adds it
      in minutes, else one hour is added. */
  function TokenExpiry(jwtExpiresIn: Option<string>, now: int): Option<int> {
    ExpiryFor(OrElse(jwtExpiresIn, "1h"), now)
  }

  function ExpiryFor(expiresIn: string, now: int): Option<int> {
    if Contains(expiresIn, "h") then Moved(Some(now), ParseInt(expiresIn), 3600000)
    else if Contains(expiresIn, "m") then Moved(Some(now), ParseInt(expiresIn), 60000)
    else Moved(Some(now), Some(1), 3600000)
  }

  /** `date.setHours(date.getHours() + count)` (unit an hour) or `setMinutes` (unit a
      minute), daylight saving aside. A Date is its time in ms, None when it is the
      Invalid Date that a NaN count makes. */
  function Moved(date: Option<int>, count: Option<int>, unit: int): (r: Option<int>)
    ensures r.Some? <==> date.Some? && count.Some?
    ensures r.Some? ==> r.value - date.value == count.value * unit
  {
    if date.None? || count.None? then None else Some(date.value + count.value * unit)
  }

  /** The Date starts at now and is moved once. */
  method GetTokenExpiry(jwtExpiresIn: Option<string>, now: int) returns (expiryDate: Option<int>)
    ensures expiryDate == TokenExpiry(jwtExpiresIn, now)
  {
    var expiresIn := OrElse(jwtExpiresIn, "1h");
    expiryDate := Some(now);
    if Contains(expiresIn, "h") {
      var hours := ParseInt(expiresIn);
      expiryDate := Moved(expiryDate, hours, 3600000);
    } else if Contains(expiresIn, "m") {
      var minutes := ParseInt(expiresIn);
      expiryDate := Moved(expiryDate, minutes, 60000);
    } else {
      expiryDate := Moved(expiryDate, Some(1), 3600000);
    }
  }

  /** A single character occurs in a string exactly when Contains finds it. */
  lemma ContainsChar(s: string, c: char)
    ensures Contains(s, [c]) <==> c in s
  {
    ContainsAt(s, [c]);
    if c in s {
      var i :| 0 <= i < |s| && s[i] == c;
      assert OccursAt(s, [c], i);
    }
    if Contains(s, [c]) {
      var i: nat :| OccursAt(s, [c], i);
      assert s[i] == s[i..i + 1][0];
    }
  }

  /** A setting that reads as the number n followed by a unit containing 'h' adds n hours,
      whatever else the unit holds: 'h' is looked for first, so "2month" is 2 hours. */
  lemma ExpiryInHours(n: nat, unit: string, now: int)
    requires unit != [] && !IsDigit(unit[0]) && (n == 0 ==> unit[0] != 'x' && unit[0] != 'X')
    requires 'h' in unit
    ensures TokenExpiry(Some(NatToString(n) + unit), now) == Some(now + n * 3600000)
  {
    var s := NatToString(n) + unit;
    assert OrElse(Some(s), "1h") == s;
    NumeralWithUnit(n, unit);
    ExpiryCase(s, now);
  }

  /** A number followed by a unit with 'm' and no 'h' ("30m", "5min") adds minutes. */
  lemma ExpiryInMinutes(n: nat, unit: string, now: int)
    requires unit != [] && !IsDigit(unit[0]) && (n == 0 ==> unit[0] != 'x' && unit[0] != 'X')
    requires 'm' in unit && 'h' !in unit
    ensures TokenExpiry(Some(NatToString(n) + unit), now) == Some(now + n * 60000)
  {
    var s := NatToString(n) + unit;
    assert OrElse(Some(s), "1h") == s;
    NumeralWithUnit(n, unit);
    ExpiryCase(s, now);
  }

  /** The numeral and its unit: parseInt reads n, and the letters found are the unit's. */
  lemma NumeralWithUnit(n: nat, unit: string)
    requires unit != [] && !IsDigit(unit[0]) && (n == 0 ==> unit[0] != 'x' && unit[0] != 'X')
    ensures var s := NatToString(n) + unit;
            && ParseInt(s) == Some(n)
            && (Contains(s, "h") <==> 'h' in unit)
            && (Contains(s, "m") <==> 'm' in unit)
  {
    var s := NatToString(n) + unit;
    ParseIntOfNumeral(n, unit);
    LetterOfNumeral(NatToString(n), unit, 'h');
    LetterOfNumeral(NatToString(n), unit, 'm');
    ContainsChar(s, 'h');
    ContainsChar(s, 'm');
    assert "h" == ['h'] && "m" == ['m'];
  }

  /** A letter occurs in a numeral with a unit exactly when it occurs in the unit. */
  lemma LetterOfNumeral(d: string, unit: string, c: char)
    requires AllDigits(d) && !IsDigit(c)
    ensures c in d + unit <==> c in unit
  {
    var s := d + unit;
    assert forall j | 0 <= j < |d| :: s[j] == d[j];
    if c in s {
      var i :| 0 <= i < |s| && s[i] == c;
      assert i >= |d|;
      assert s[i] == unit[i - |d|];
    }
    if c in unit {
      var i :| 0 <= i < |unit| && unit[i] == c;
      assert s[|d| + i] == c;
    }
  }

  /** The branch the setting takes, once its letters and its number are known. */
  lemma ExpiryCase(s: string, now: int)
    requires ParseInt(s).Some?
    ensures Contains(s, "h") ==> ExpiryFor(s, now) == Some(now + ParseInt(s).value * 3600000)
    ensures !Contains(s, "h") && Contains(s, "m") ==> ExpiryFor(s, now) == Some(now + ParseInt(s).value * 60000)
  {
  }

  /** Without JWT_EXPIRES_IN (or with it empty) the default "1h" gives one hour. */
  lemma ExpiryDefault(now: int)
    ensures TokenExpiry(None, now) == Some(now + 3600000)
    ensures TokenExpiry(Some(""), now) == Some(now + 3600000)
  {
    ExpiryInHours(1, "h", now);
    assert NatToString(1) + "h" == "1h";
  }

  /** A setting with neither 'h' nor 'm' ("7d", "3600") gives one hour, whatever its number. */
  lemma ExpiryOtherUnit(expiresIn: string, now: int)
    requires expiresIn != "" && 'h' !in expiresIn && 'm' !in expiresIn
    ensures TokenExpiry(Some(expiresIn), now) == Some(now + 3600000)
  {
    ContainsChar(expiresIn, 'h');
    ContainsChar(expiresIn, 'm');
    assert "h" == ['h'] && "m" == ['m'];
  }

  // ---------------------------------------------------------------------------
  // login

  const Rejected := "Email atau password salah"

  /** The user signing in (controllers/authController.js:43): the first user with that
      email. */
  function FindByEmail(users: Table<User>, email: string): (r: Option<Row<User>>)
    ensures r.None? <==> forall i | 0 <= i < |users| :: users[i].val.email != email
    ensures r.Some? ==> exists i | 0 <= i < |users| :: users[i] == r.value && r.value.val.email == email
    decreases |users|
  {
    if users == [] then None
    else if users[0].val.email == email then Some(users[0])
    else
      var r := FindByEmail(users[1..], email);
      assert forall i | 1 <= i < |users| :: users[i] == users[1..][i - 1];
      r
  }

  /** The session rows a `Session.update` selects. */
  function OfUser(userId: nat): Session -> bool {
    (s: Session) => s.userId == userId
  }

  function HoldingToken(token: string): Session -> bool {
    (s: Session) => s.token == token
  }

  /** A bulk update of sessions (controllers/authController.js:57-65 and :102-110): every
      active session the filter selects becomes inactive; nothing else moves. */
  function Deactivated(sessions: Table<Session>, hit: Session -> bool): (r: Table<Session>)
    ensures |r| == |sessions|
    ensures forall i | 0 <= i < |sessions| ::
              r[i] == if hit(sessions[i].val) && sessions[i].val.isActive
                      then Row(sessions[i].id, sessions[i].val.(isActive := false)) else sessions[i]
  {
    seq(|sessions|, i requires 0 <= i < |sessions| =>
      if hit(sessions[i].val) && sessions[i].val.isActive
      then Row(sessions[i].id, sessions[i].val.(isActive := false)) else sessions[i])
  }

  /** The unique index on token refuses a token some session row already holds. */
  predicate TokenTaken(sessions: Table<Session>, token: string) {
    exists i | 0 <= i < |sessions| :: sessions[i].val.token == token
  }

  /** The `data` of a successful login: the token, its expiry and the user's id, email,
      name and role. */
  datatype LoginData = LoginData(token: string, expiresAt: int, user: Row<User>)

  /** `login` with the request's email, password and user-agent; `passwordMatches` is
      `user.comparePassword`, `token` what `jwt.sign` returned (None: it threw), and `expiry`
      what `getTokenExpiry` returned (the Login method passes TokenExpiry). The earlier
      sessions are deactivated before the token is made, and that update stays when a later
      step fails with 500: an invalid expiry, or a token a session row already holds. */
  function LoginSpec(db: Db, email: Option<string>, password: Option<string>,
                     passwordMatches: (User, string) -> bool, token: Option<string>,
                     expiry: Option<int>, userAgent: Option<string>): (Response<LoginData>, Db)
  {
    if !Truthy(email) || !Truthy(password) then (BadRequest("Email dan password harus diisi"), db)
    else match FindByEmail(db.users, email.value)
      case None => (Unauthorized(Some(Rejected)), db)
      case Some(user) =>
        if !passwordMatches(user.val, password.value) then (Unauthorized(Some(Rejected)), db)
        else
          var closed := db.(sessions := Deactivated(db.sessions, OfUser(user.id)));
          if token.None? then (ServerError("Error saat login"), closed)
          else match expiry
            case None => (ServerError("Error saat login"), closed)
            case Some(expiresAt) =>
              if TokenTaken(closed.sessions, token.value) then (ServerError("Error saat login"), closed)
              else
                var session := Row(db.next.session, Session(user.id, token.value,
                                   Some(OrElse(userAgent, "Unknown Device")), expiresAt, true));
                (Responses.Success(Some(LoginData(token.value, expiresAt, user)), Some("Login berhasil"), None),
                 closed.(sessions := closed.sessions + [session], next := db.next.(session := db.next.session + 1)))
  }

  method Login(store: Store.Database, email: Option<string>, password: Option<string>,
               passwordMatches: (User, string) -> bool, token: Option<string>,
               jwtExpiresIn: Option<string>, now: int, userAgent: Option<string>)
    returns (r: Response<LoginData>)
    modifies store
    ensures (r, store.State()) == LoginSpec(old(store.State()), email, password, passwordMatches, token,
                                            TokenExpiry(jwtExpiresIn, now), userAgent)
  {
    ghost var db := store.State();
    if !Truthy(email) || !Truthy(password) {
      return BadRequest("Email dan password harus diisi");
    }
    var user := FindByEmail(store.users, email.value);
    if user.None? {
      return Unauthorized(Some(Rejected));
    }
    if !passwordMatches(user.value.val, password.value) {
      return Unauthorized(Some(Rejected));
    }
    store.sessions := Deactivated(store.sessions, OfUser(user.value.id));
    ghost var closed := db.(sessions := Deactivated(db.sessions, OfUser(user.value.id)));
    assert store.State() == closed;
    if token.None? {
      return ServerError("Error saat login");
    }
    var expiresAt := GetTokenExpiry(jwtExpiresIn, now);
    if expiresAt.None? || TokenTaken(store.sessions, token.value) {
      return ServerError("Error saat login");
    }
    var deviceInfo := OrElse(userAgent, "Unknown Device");
    var session := Row(store.next.session, Session(user.value.id, token.value, Some(deviceInfo), expiresAt.value, true));
    store.sessions := store.sessions + [session];
    store.next := store.next.(session := store.next.session + 1);
    assert store.State() == closed.(sessions := closed.sessions + [session], next := db.next.(session := db.next.session + 1));
    r := Responses.Success(Some(LoginData(token.value, expiresAt.value, user.value)), Some("Login berhasil"), None);
  }

  /** A missing email or password is a 400 and changes nothing. */
  lemma MissingCredentials(db: Db, email: Option<string>, password: Option<string>,
                           passwordMatches: (User, string) -> bool, token: Option<string>,
                           expiry: Option<int>, userAgent: Option<string>)
    ensures var (r, db') := LoginSpec(db, email, password, passwordMatches, token, expiry, userAgent);
            (r.status == 400 <==> !Truthy(email) || !Truthy(password))
            && (r.status == 400 ==> r.body.message == Some("Email dan password harus diisi") && db' == db)
  {
  }

  /** An unknown email and a wrong password get the same 401 reply, so the reply does not
      tell which one it was, and neither changes anything. */
  lemma SameRejection(db: Db, email: string, password: string, passwordMatches: (User, string) -> bool,
                      token: Option<string>, expiry: Option<int>, userAgent: Option<string>)
    requires email != "" && password != ""
    requires (forall i | 0 <= i < |db.users| :: db.users[i].val.email != email)
             || (exists i | 0 <= i < |db.users| :: && db.users[i].val.email == email
                                                   && (forall k | 0 <= k < i :: db.users[k].val.email != email)
                                                   && !passwordMatches(db.users[i].val, password))
    ensures LoginSpec(db, Some(email), Some(password), passwordMatches, token, expiry, userAgent)
            == (Unauthorized(Some("Email atau password salah")), db)
  {
    var u := FindByEmail(db.users, email);
    if u.Some? {
      var i :| 0 <= i < |db.users| && db.users[i].val.email == email
               && (forall k | 0 <= k < i :: db.users[k].val.email != email)
               && !passwordMatches(db.users[i].val, password);
      FirstByEmail(db.users, email, i);
    }
  }

  /** The user found is the first with that email. */
  lemma {:induction false} FirstByEmail(users: Table<User>, email: string, i: nat)
    requires i < |users| && users[i].val.email == email
    requires forall k | 0 <= k < i :: users[k].val.email != email
    ensures FindByEmail(users, email) == Some(users[i])
    decreases i
  {
    if i > 0 {
      FirstByEmail(users[1..], email, i - 1);
    }
  }

  /** The facts of a successful login, as the other login lemmas use them. */
  predicate LoggedIn(db: Db, email: Option<string>, password: Option<string>,
                     passwordMatches: (User, string) -> bool, token: Option<string>,
                     expiry: Option<int>) {
    && Truthy(email) && Truthy(password)
    && FindByEmail(db.users, email.value).Some?
    && passwordMatches(FindByEmail(db.users, email.value).value.val, password.value)
    && token.Some? && expiry.Some?
    && !TokenTaken(db.sessions, token.value)
  }

  /** Login succeeds exactly when every step does, and replies with the token, its expiry
      and the user. */
  lemma LoginSucceeds(db: Db, email: Option<string>, password: Option<string>,
                      passwordMatches: (User, string) -> bool, token: Option<string>,
                      expiry: Option<int>, userAgent: Option<string>)
    ensures var r := LoginSpec(db, email, password, passwordMatches, token, expiry, userAgent).0;
            && (r.status == 200 <==> LoggedIn(db, email, password, passwordMatches, token, expiry))
            && (r.status == 200 ==>
                  && r.body.message == Some("Login berhasil")
                  && r.body.data == Some(LoginData(token.value, expiry.value,
                                                   FindByEmail(db.users, email.value).value))
                  && r.body.data.value.user.val.email == email.value)
  {
    if Truthy(email) && Truthy(password) && FindByEmail(db.users, email.value).Some? {
      var user := FindByEmail(db.users, email.value).value;
      var closed := Deactivated(db.sessions, OfUser(user.id));
      if token.Some? {
        assert TokenTaken(closed, token.value) <==> TokenTaken(db.sessions, token.value) by {
          forall i | 0 <= i < |db.sessions| ensures closed[i].val.token == db.sessions[i].val.token {
          }
        }
      }
    }
  }

  /** After a successful login the user has exactly one active session, the new last row
      (holding the token, the computed expiry and the user-agent or 'Unknown Device');
      every earlier session of the user is now inactive and otherwise as it was, other
      users' sessions and every other table are unchanged. */
  lemma SingleActiveSession(db: Db, email: Option<string>, password: Option<string>,
                            passwordMatches: (User, string) -> bool, token: Option<string>,
                            expiry: Option<int>, userAgent: Option<string>)
    requires LoggedIn(db, email, password, passwordMatches, token, expiry)
    ensures var db' := LoginSpec(db, email, password, passwordMatches, token, expiry, userAgent).1;
            var u := FindByEmail(db.users, email.value).value;
            && |db'.sessions| == |db.sessions| + 1
            && db'.sessions[|db.sessions|]
               == Row(db.next.session, Session(u.id, token.value, Some(OrElse(userAgent, "Unknown Device")),
                                               expiry.value, true))
            && (forall i | 0 <= i < |db'.sessions| && db'.sessions[i].val.userId == u.id && db'.sessions[i].val.isActive ::
                  i == |db.sessions|)
            && (forall i | 0 <= i < |db.sessions| && db.sessions[i].val.userId == u.id ::
                  db'.sessions[i] == Row(db.sessions[i].id, db.sessions[i].val.(isActive := false)))
            && (forall i | 0 <= i < |db.sessions| && db.sessions[i].val.userId != u.id ::
                  db'.sessions[i] == db.sessions[i])
            && db' == db.(sessions := db'.sessions, next := db.next.(session := db.next.session + 1))
  {
    var u := FindByEmail(db.users, email.value).value;
    var closed := Deactivated(db.sessions, OfUser(u.id));
    LoginSucceeds(db, email, password, passwordMatches, token, expiry, userAgent);
    assert !TokenTaken(closed, token.value);
    var session := Row(db.next.session, Session(u.id, token.value, Some(OrElse(userAgent, "Unknown Device")),
                                                 expiry.value, true));
    assert LoginSpec(db, email, password, passwordMatches, token, expiry, userAgent).1
           == db.(sessions := closed + [session], next := db.next.(session := db.next.session + 1));
  }

  /** A login that fails after the password check (jwt.sign throws, the expiry is invalid or
      the token is already stored) replies 500 and adds no session, but the user's earlier
      sessions stay deactivated. */
  lemma LateFailure(db: Db, email: Option<string>, password: Option<string>,
                    passwordMatches: (User, string) -> bool, token: Option<string>,
                    expiry: Option<int>, userAgent: Option<string>)
    requires Truthy(email) && Truthy(password) && FindByEmail(db.users, email.value).Some?
    requires passwordMatches(FindByEmail(db.users, email.value).value.val, password.value)
    requires !LoggedIn(db, email, password, passwordMatches, token, expiry)
    ensures var (r, db') := LoginSpec(db, email, password, passwordMatches, token, expiry, userAgent);
            var u := FindByEmail(db.users, email.value).value;
            && r.status == 500 && r.body.message == Some("Error saat login")
            && db' == db.(sessions := Deactivated(db.sessions, OfUser(u.id)))
            && (forall i | 0 <= i < |db'.sessions| :: db'.sessions[i].val.userId == u.id ==> !db'.sessions[i].val.isActive)
  {
    LoginSucceeds(db, email, password, passwordMatches, token, expiry, userAgent);
  }

  /** Deactivating sessions keeps every schema constraint: keys, owners and tokens stay. */
  lemma DeactivatedKeepsValid(db: Db, hit: Session -> bool)
    requires Valid(db)
    ensures Valid(db.(sessions := Deactivated(db.sessions, hit)))
  {
    var db' := db.(sessions := Deactivated(db.sessions, hit));
    assert forall i | 0 <= i < |db.sessions| ::
             db'.sessions[i].id == db.sessions[i].id && db'.sessions[i].val.userId == db.sessions[i].val.userId
             && db'.sessions[i].val.token == db.sessions[i].val.token;
    assert KeysValid(db');
    assert SessionsValid(db'.sessions, db'.users);
  }

  /** Login keeps every schema constraint: the new session belongs to an existing user, takes
      a fresh key, and its token is unused. */
  lemma LoginKeepsValid(db: Db, email: Option<string>, password: Option<string>,
                        passwordMatches: (User, string) -> bool, token: Option<string>,
                        expiry: Option<int>, userAgent: Option<string>)
    requires Valid(db)
    ensures Valid(LoginSpec(db, email, password, passwordMatches, token, expiry, userAgent).1)
  {
    var db' := LoginSpec(db, email, password, passwordMatches, token, expiry, userAgent).1;
    LoginSucceeds(db, email, password, passwordMatches, token, expiry, userAgent);
    if Truthy(email) && Truthy(password) && FindByEmail(db.users, email.value).Some? {
      var u := FindByEmail(db.users, email.value).value;
      var closed := db.(sessions := Deactivated(db.sessions, OfUser(u.id)));
      DeactivatedKeepsValid(db, OfUser(u.id));
      if LoggedIn(db, email, password, passwordMatches, token, expiry) {
        SingleActiveSession(db, email, password, passwordMatches, token, expiry, userAgent);
        var s := db'.sessions[|db.sessions|];
        assert db'.sessions == closed.sessions + [s];
        KeyedAppend(closed.sessions, db.next.session, s.val);
        assert HasId(db.users, u.id);
        assert !TokenTaken(closed.sessions, token.value);
        assert SessionsValid(db'.sessions, db'.users);
        assert KeysValid(db');
      }
    }
  }

  /** The token of a successful login authenticates, until its expiry, as that user with
      that session (jsonwebtoken accepting it). */
  lemma LoginThenAuthenticate(db: Db, email: Option<string>, password: Option<string>,
                              passwordMatches: (User, string) -> bool, token: Option<string>,
                              expiry: Option<int>, userAgent: Option<string>,
                              later: int, nodeEnv: Option<string>)
    requires KeysValid(db)
    requires LoggedIn(db, email, password, passwordMatches, token, expiry)
    requires token.value != "" && ' ' !in token.value
    requires later < expiry.value
    ensures var db' := LoginSpec(db, email, password, passwordMatches, token, expiry, userAgent).1;
            var u := FindByEmail(db.users, email.value).value;
            Access.Authenticate(db', Some("Bearer " + token.value), Access.Verified, later, nodeEnv)
            == Access.Proceed(Some(u), Some(db'.sessions[|db.sessions|]))
  {
    var db' := LoginSpec(db, email, password, passwordMatches, token, expiry, userAgent).1;
    var u := FindByEmail(db.users, email.value).value;
    SingleActiveSession(db, email, password, passwordMatches, token, expiry, userAgent);
    Access.BearerRoundTrip("Bearer", token.value);
    assert "Bearer " + token.value == "Bearer" + " " + token.value;
    var last := db'.sessions[|db.sessions|];
    var closed := db'.sessions[..|db.sessions|];
    assert db'.sessions == closed + [last];
    forall m | 0 <= m < |closed| ensures closed[m].val.token != token.value {
      assert closed[m].val.token == db.sessions[m].val.token;
    }
    LastLive(closed, last, token.value, later);
    var i :| 0 <= i < |db.users| && db.users[i] == u;
    OrderedIndex(db.users, i);
  }

  /** A live session appended after rows that all hold other tokens is the one found. */
  lemma LastLive(sessions: Table<Session>, s: Row<Session>, token: string, now: int)
    requires forall m | 0 <= m < |sessions| :: sessions[m].val.token != token
    requires Access.Live(s.val, token, now)
    ensures Access.LiveSession(sessions + [s], token, now) == Some(s)
  {
    var all := sessions + [s];
    assert Access.Live(all[|sessions|].val, token, now);
    var r := Access.LiveSession(all, token, now);
    var k :| 0 <= k < |all| && all[k] == r.value;
    if k < |sessions| {
      assert all[k].val.token == sessions[k].val.token;
    }
  }

  /** After a login, no earlier session of the user lets a request through. */
  lemma OldSessionsEnded(db: Db, email: Option<string>, password: Option<string>,
                         passwordMatches: (User, string) -> bool, token: Option<string>,
                         expiry: Option<int>, userAgent: Option<string>,
                         j: nat, authorization: Option<string>, later: int, nodeEnv: Option<string>)
    requires Valid(db)
    requires LoggedIn(db, email, password, passwordMatches, token, expiry)
    requires j < |db.sessions| && db.sessions[j].val.userId == FindByEmail(db.users, email.value).value.id
    requires Access.BearerToken(authorization) == Some(db.sessions[j].val.token) && db.sessions[j].val.token != ""
    ensures var db' := LoginSpec(db, email, password, passwordMatches, token, expiry, userAgent).1;
            Access.Authenticate(db', authorization, Access.Verified, later, nodeEnv)
            == Access.Stop(Unauthorized(Some("Token tidak valid atau sudah expired")))
  {
    var db' := LoginSpec(db, email, password, passwordMatches, token, expiry, userAgent).1;
    SingleActiveSession(db, email, password, passwordMatches, token, expiry, userAgent);
    var t := db.sessions[j].val.token;
    forall k | 0 <= k < |db'.sessions| ensures !Access.Live(db'.sessions[k].val, t, later) {
      if k == |db.sessions| {
        assert !TokenTaken(db.sessions, token.value);
      } else if k != j {
        assert db'.sessions[k].val.token == db.sessions[k].val.token;
        assert db.sessions[k].val.token != t by {
          if k < j {} else {}
        }
      }
    }
  }

  // ---------------------------------------------------------------------------
  // logout

  /** `logout`: the active session holding the header's bearer token (if there is one) is
      deactivated; the reply is a success in every case. */
  function LogoutSpec(db: Db, authorization: Option<string>): (Response<LoginData>, Db) {
    var token := Access.BearerToken(authorization);
    var db' := if Truthy(token) then db.(sessions := Deactivated(db.sessions, HoldingToken(token.value))) else db;
    (Responses.Success(None, Some("Logout berhasil"), None), db')
  }

  method Logout(store: Store.Database, authorization: Option<string>) returns (r: Response<LoginData>)
    modifies store
    ensures (r, store.State()) == LogoutSpec(old(store.State()), authorization)
  {
    var token := Access.BearerToken(authorization);
    if Truthy(token) {
      store.sessions := Deactivated(store.sessions, HoldingToken(token.value));
    }
    r := Responses.Success(None, Some("Logout berhasil"), None);
  }

  /** Logout always succeeds; it ends only the session holding the presented token, and
      without a token it changes nothing. */
  lemma LogoutEndsOnlyThatSession(db: Db, authorization: Option<string>)
    ensures var (r, db') := LogoutSpec(db, authorization);
            var token := Access.BearerToken(authorization);
            && r.status == 200 && r.body.success && r.body.message == Some("Logout berhasil") && r.body.data.None?
            && (!Truthy(token) ==> db' == db)
            && db' == db.(sessions := db'.sessions) && |db'.sessions| == |db.sessions|
            && (forall i | 0 <= i < |db.sessions| && (token.None? || db.sessions[i].val.token != token.value) ::
                  db'.sessions[i] == db.sessions[i])
            && (forall i | 0 <= i < |db.sessions| && Truthy(token) && db.sessions[i].val.token == token.value ::
                  db'.sessions[i] == Row(db.sessions[i].id, db.sessions[i].val.(isActive := false)))
  {
  }

  /** After logout the presented token no longer authenticates. */
  lemma LogoutThenRefused(db: Db, authorization: Option<string>, later: int, nodeEnv: Option<string>)
    requires Truthy(Access.BearerToken(authorization))
    ensures Access.Authenticate(LogoutSpec(db, authorization).1, authorization, Access.Verified, later, nodeEnv)
            == Access.Stop(Unauthorized(Some("Token tidak valid atau sudah expired")))
  {
    var db' := LogoutSpec(db, authorization).1;
    var t := Access.BearerToken(authorization).value;
    LogoutEndsOnlyThatSession(db, authorization);
    forall k | 0 <= k < |db'.sessions| ensures !Access.Live(db'.sessions[k].val, t, later) {
      assert db.sessions[k].val.token == t ==> !db'.sessions[k].val.isActive;
      assert db.sessions[k].val.token != t ==> db'.sessions[k].val.token != t;
    }
  }

  /** Logout keeps every schema constraint. */
  lemma LogoutKeepsValid(db: Db, authorization: Option<string>)
    requires Valid(db)
    ensures Valid(LogoutSpec(db, authorization).1)
  {
    var token := Access.BearerToken(authorization);
    if Truthy(token) {
      DeactivatedKeepsValid(db, HoldingToken(token.value));
    }
  }
}
