/**
 * The admin session workflow: pages/api/admin/login.ts, logout.ts and change-password.ts.
 * The Prisma `admin` table is an `AdminTable` object; each handler is a method that runs the
 * source's guard chain against it and the response object, and is proved to produce the reply
 * (and table) that a specification function of the request and the old table describes.
 */
module AdminSession {
  import opened Wrappers
  import opened Http
  import opened Auth

  /** A row of the `admin` table; `password` holds the bcrypt hash. */
  datatype Admin = Admin(id: string, email: string, name: string, password: string)

  /** The JSON bodies of the three handlers: `status`, `message`, and on login success `admin`. */
  datatype Body = Body(status: string, message: string, admin: Option<Identity>)

  function Error(message: string): Body {
    Body("error", message, None)
  }

  /** The table invariant: rows are keyed by their id and `email` is a unique column. */
  ghost predicate WellFormed(rows: map<string, Admin>) {
    && (forall k :: k in rows ==> rows[k].id == k)
    && (forall k1, k2 :: k1 in rows && k2 in rows && rows[k1].email == rows[k2].email ==> k1 == k2)
  }

  /** `prisma.admin.findUnique({ where: { email } })` on a well-formed table. */
  ghost function AdminWithEmail(rows: map<string, Admin>, email: string): (found: Option<Admin>)
    requires WellFormed(rows)
    ensures found.Some? <==> exists k :: k in rows && rows[k].email == email
    ensures found.Some? ==> found.value.id in rows && rows[found.value.id] == found.value && found.value.email == email
  {
    if exists k :: k in rows && rows[k].email == email then
      var k :| k in rows && rows[k].email == email;
      Some(rows[k])
    else None
  }

  /** The Prisma `admin` table. When `online` is false every call throws; `queries` counts the calls made. */
  class AdminTable {
    var rows: map<string, Admin>
    var online: bool
    ghost var queries: nat

    ghost predicate Valid()
      reads this
    {
      WellFormed(rows)
    }

    constructor (initial: map<string, Admin>, reachable: bool)
      requires WellFormed(initial)
      ensures Valid() && rows == initial && online == reachable && queries == 0
    {
      rows := initial;
      online := reachable;
      queries := 0;
    }

    /** `findUnique({ where: { email } })`; `fault` stands for the exception it throws when the store is unreachable. */
    method FindByEmail(email: string) returns (found: Option<Admin>, fault: bool)
      requires Valid()
      modifies this`queries
      ensures queries == old(queries) + 1
      ensures fault == !online
      ensures !fault ==> found == AdminWithEmail(rows, email)
    {
      queries := queries + 1;
      fault := !online;
      found := None;
      if !fault && exists k :: k in rows && rows[k].email == email {
        var k :| k in rows && rows[k].email == email;
        found := Some(rows[k]);
      }
    }

    /** `findUnique({ where: { id } })`. */
    method FindById(id: string) returns (found: Option<Admin>, fault: bool)
      requires Valid()
      modifies this`queries
      ensures queries == old(queries) + 1
      ensures fault == !online
      ensures !fault ==> found == if id in rows then Some(rows[id]) else None
    {
      queries := queries + 1;
      fault := !online;
      found := if !fault && id in rows then Some(rows[id]) else None;
    }

    /** `update({ where: { id }, data: { password } })`: only that row's `password` changes; an unknown id throws. */
    method UpdatePassword(id: string, hashed: string) returns (fault: bool)
      requires Valid()
      modifies this
      ensures Valid() && online == old(online) && queries == old(queries) + 1
      ensures fault == (!old(online) || id !in old(rows))
      ensures rows == if fault then old(rows) else old(rows)[id := old(rows)[id].(password := hashed)]
    {
      queries := queries + 1;
      fault := !online || id !in rows;
      if !fault {
        rows := rows[id := rows[id].(password := hashed)];
      }
    }
  }

  // ---------------------------------------------------------------------------------------
  // Login

  /** The JSON body of a login request. */
  datatype Credentials = Credentials(email: Option<string>, password: Option<string>)

  /**
   * A `Set-Cookie` value for the session cookie, as both handlers write it:
   * `admin-token=<value>; HttpOnly; Path=/; Max-Age=<maxAge>; SameSite=<sameSite>`.
   */
  function SessionSetCookie(value: string, maxAge: string, sameSite: string): string {
    (SessionCookie + "=" + value) + "; " + CookieAttributes(maxAge, sameSite)
  }

  /** The attributes that follow the `admin-token=<value>` pair of the session cookie. */
  function CookieAttributes(maxAge: string, sameSite: string): string {
    "HttpOnly; Path=/; Max-Age=" + maxAge + "; SameSite=" + sameSite
  }

  /** The session cookie set on login: the token, for `24 * 60 * 60` seconds, SameSite=Lax. */
  function LoginCookie(token: string): string {
    SessionSetCookie(token, "86400", "Lax")
  }

  /** What the login handler replies, given the `admin` table as it is. */
  ghost function LoginOutcome(req: Request<Credentials>, rows: map<string, Admin>, online: bool,
                              h: Hasher, c: TokenCodec, now: int): Reply<Body>
    requires WellFormed(rows)
  {
    if req.verb != "POST" then Reply(405, map[], Error("Method not allowed"))
    else if !Truthy(req.body.email) || !Truthy(req.body.password) then
      Reply(400, map[], Error("Email and password are required"))
    else if !online then Reply(500, map[], Error("Internal server error"))
    else match AdminWithEmail(rows, req.body.email.value)
      case None => Reply(401, map[], Error("Invalid credentials"))
      case Some(admin) =>
        if !VerifyPassword(h, req.body.password.value, admin.password) then
          Reply(401, map[], Error("Invalid credentials"))
        else
          var identity := Identity(admin.id, admin.email, admin.name);
          Reply(200, map["Set-Cookie" := LoginCookie(CreateToken(c, identity, now))],
                Body("success", "Login successful", Some(identity)))
  }

  /** The number of store calls login makes: one lookup, once the method and both fields pass. */
  function LoginQueries(req: Request<Credentials>): nat {
    if req.verb == "POST" && Truthy(req.body.email) && Truthy(req.body.password) then 1 else 0
  }

  /** pages/api/admin/login.ts `handler`. */
  method Login(req: Request<Credentials>, admins: AdminTable, res: ServerResponse<Body>,
               h: Hasher, c: TokenCodec, now: int)
    requires admins.Valid() && res.headers == map[] && res.body == None
    modifies res, admins`queries
    ensures admins.Valid() && admins.rows == old(admins.rows)
    ensures admins.queries == old(admins.queries) + LoginQueries(req)
    ensures res.Sent() == Some(LoginOutcome(req, admins.rows, admins.online, h, c, now))
  {
    if req.verb != "POST" {
      res.Send(405, Error("Method not allowed"));
      return;
    }
    var email, password := req.body.email, req.body.password;
    if !Truthy(email) || !Truthy(password) {
      res.Send(400, Error("Email and password are required"));
      return;
    }
    var found, fault := admins.FindByEmail(email.value);
    if fault {
      res.Send(500, Error("Internal server error"));
      return;
    }
    if found.None? {
      res.Send(401, Error("Invalid credentials"));
      return;
    }
    var admin := found.value;
    if !VerifyPassword(h, password.value, admin.password) {
      res.Send(401, Error("Invalid credentials"));
      return;
    }
    var token := CreateToken(c, Identity(admin.id, admin.email, admin.name), now);
    res.SetHeader("Set-Cookie", LoginCookie(token));
    res.Send(200, Body("success", "Login successful", Some(Identity(admin.id, admin.email, admin.name))));
  }

  /** A request that is not a POST gets 405, with no store call and no cookie. */
  lemma LoginRejectsOtherMethods(req: Request<Credentials>, rows: map<string, Admin>, online: bool,
                                 h: Hasher, c: TokenCodec, now: int)
    requires WellFormed(rows) && req.verb != "POST"
    ensures LoginOutcome(req, rows, online, h, c, now) == Reply(405, map[], Error("Method not allowed"))
    ensures LoginQueries(req) == 0
  {
  }

  /** A missing or empty email or password gets 400 before any lookup. */
  lemma LoginRequiresBothFields(req: Request<Credentials>, rows: map<string, Admin>, online: bool,
                                h: Hasher, c: TokenCodec, now: int)
    requires WellFormed(rows) && req.verb == "POST"
    requires !Truthy(req.body.email) || !Truthy(req.body.password)
    ensures LoginOutcome(req, rows, online, h, c, now) == Reply(400, map[], Error("Email and password are required"))
    ensures LoginQueries(req) == 0
  {
  }

  /** A store that cannot be reached, once both fields are given, gives 500 and no cookie. */
  lemma LoginStoreFaultIsServerError(req: Request<Credentials>, rows: map<string, Admin>,
                                     h: Hasher, c: TokenCodec, now: int)
    requires WellFormed(rows) && req.verb == "POST"
    requires Truthy(req.body.email) && Truthy(req.body.password)
    ensures LoginOutcome(req, rows, false, h, c, now) == Reply(500, map[], Error("Internal server error"))
    ensures LoginQueries(req) == 1
  {
  }

  /**
   * An unknown email and a known email with the wrong password get the identical reply, so
   * the response does not tell which one was the case.
   */
  lemma LoginFailureIsUniform(unknown: Request<Credentials>, wrong: Request<Credentials>,
                              rows: map<string, Admin>, h: Hasher, c: TokenCodec, now: int)
    requires WellFormed(rows)
    requires unknown.verb == "POST" && Truthy(unknown.body.email) && Truthy(unknown.body.password)
    requires wrong.verb == "POST" && Truthy(wrong.body.email) && Truthy(wrong.body.password)
    requires forall k :: k in rows ==> rows[k].email != unknown.body.email.value
    requires exists k :: (k in rows && rows[k].email == wrong.body.email.value
      && !VerifyPassword(h, wrong.body.password.value, rows[k].password))
    ensures LoginOutcome(unknown, rows, true, h, c, now) == LoginOutcome(wrong, rows, true, h, c, now)
    ensures LoginOutcome(unknown, rows, true, h, c, now) == Reply(401, map[], Error("Invalid credentials"))
  {
    var k :| k in rows && rows[k].email == wrong.body.email.value
      && !VerifyPassword(h, wrong.body.password.value, rows[k].password);
    var found := AdminWithEmail(rows, wrong.body.email.value);
    assert found.value.id == k;
  }

  /**
   * Login succeeds exactly when the method, both fields, the lookup and the password check
   * pass. Then, and only then, one cookie is set, holding a token over exactly
   * `{id, email, name}` of that admin, and the body's `admin` is that triple: never the hash.
   */
  lemma LoginSucceedsOnlyWithValidPassword(req: Request<Credentials>, rows: map<string, Admin>, online: bool,
                                           h: Hasher, c: TokenCodec, now: int)
    requires WellFormed(rows)
    ensures var reply := LoginOutcome(req, rows, online, h, c, now);
      && (reply.code == 200 <==>
            && req.verb == "POST" && Truthy(req.body.email) && Truthy(req.body.password) && online
            && exists k :: k in rows && rows[k].email == req.body.email.value
                && VerifyPassword(h, req.body.password.value, rows[k].password))
      && ("Set-Cookie" in reply.headers <==> reply.code == 200)
      && (reply.code == 200 ==>
            var admin := AdminWithEmail(rows, req.body.email.value).value;
            var identity := Identity(admin.id, admin.email, admin.name);
            && reply.headers == map["Set-Cookie" := LoginCookie(CreateToken(c, identity, now))]
            && reply.body == Body("success", "Login successful", Some(identity)))
      && (reply.code != 200 ==> reply.body.status == "error" && reply.body.admin == None)
  {
    var reply := LoginOutcome(req, rows, online, h, c, now);
    if req.verb == "POST" && Truthy(req.body.email) && Truthy(req.body.password) && online {
      var found := AdminWithEmail(rows, req.body.email.value);
      if exists k :: k in rows && rows[k].email == req.body.email.value
                && VerifyPassword(h, req.body.password.value, rows[k].password) {
        var k :| k in rows && rows[k].email == req.body.email.value
                && VerifyPassword(h, req.body.password.value, rows[k].password);
        assert found.value.id == k;
      }
    }
  }

  /** The token in a login cookie identifies the admin who logged in, until it expires 24 hours later. */
  lemma LoginTokenIdentifiesAdmin(admin: Admin, c: TokenCodec, issuedAt: int, now: int)
    requires CodecSound(c)
    requires issuedAt <= now < issuedAt + TokenLifetime
    ensures var token := CreateToken(c, Identity(admin.id, admin.email, admin.name), issuedAt);
      && token != ""
      && GetUserFromRequest(RequestCookies(Some(map[SessionCookie := token]), None), c, now)
         == Some(Claims(admin.id, admin.email, admin.name, issuedAt, issuedAt + TokenLifetime))
  {
    CreatedTokenVerifies(c, Identity(admin.id, admin.email, admin.name), issuedAt, now);
  }

  // ---------------------------------------------------------------------------------------
  // Logout

  /** The cookie logout sets: empty value, expired at once, SameSite=Strict. */
  const ClearedCookie: string := SessionSetCookie("", "0", "Strict")

  /** What the logout handler replies: it looks at nothing but the method. */
  function LogoutOutcome(verb: string): Reply<Body> {
    if verb != "POST" then Reply(405, map[], Error("Method not allowed"))
    else Reply(200, map["Set-Cookie" := ClearedCookie], Body("success", "Logged out successfully", None))
  }

  /** pages/api/admin/logout.ts `handler`: the cookie is cleared whatever session the request carries. */
  method Logout<B>(req: Request<B>, res: ServerResponse<Body>)
    requires res.headers == map[] && res.body == None
    modifies res
    ensures res.Sent() == Some(LogoutOutcome(req.verb))
  {
    if req.verb != "POST" {
      res.Send(405, Error("Method not allowed"));
      return;
    }
    res.SetHeader("Set-Cookie", ClearedCookie);
    res.Send(200, Body("success", "Logged out successfully", None));
  }

  /**
   * Logout's reply: 405 without a cookie for another method; for a POST always 200 with exactly
   * the cleared cookie. A browser that still sent the cleared cookie's `admin-token=` entry
   * would carry an empty token, and an empty token means no identity.
   */
  lemma LogoutClearsSession(verb: string, c: TokenCodec, now: int)
    ensures verb != "POST" ==> LogoutOutcome(verb).code == 405 && LogoutOutcome(verb).headers == map[]
    ensures verb == "POST" ==>
      LogoutOutcome(verb).code == 200 && LogoutOutcome(verb).headers == map["Set-Cookie" := ClearedCookie]
    ensures var entry := Text.Split(ClearedCookie, "; ")[0];
      && CookieEntry(entry) == (SessionCookie, "")
      && GetUserFromRequest(RequestCookies(None, Some(entry)), c, now) == None
  {
    var entry := SessionCookie + "=" + "";
    // The first "; " of the cleared cookie comes right after `admin-token=`.
    SplitPrefixEntry(entry, CookieAttributes("0", "Strict"));
    assert '=' in entry by { assert entry[|SessionCookie|] == '='; }
    Text.SplitAtCharUnique(SessionCookie, "", CookieEntry(entry).0, CookieEntry(entry).1, '=');
    forall i: nat ensures !Text.OccursAt(entry, "; ", i) {
      if i + 2 <= |entry| {
        assert entry[i..i + 2][0] == entry[i];
      }
    }
    Text.SplitWithoutSeparator(entry, "; ");
    var cookies := RequestCookies(None, Some(entry));
    LastHeaderEntryDecides(cookies, c, now, 0);
  }

  /** The first part of `entry + "; " + rest` is `entry` when `entry` holds no `;`. */
  lemma {:induction false} SplitPrefixEntry(entry: string, rest: string)
    requires ';' !in entry
    ensures Text.Split(entry + "; " + rest, "; ")[0] == entry
    decreases |entry|
  {
    var s := entry + "; " + rest;
    if entry == [] {
      assert "; " <= s;
    } else {
      assert s[0] == entry[0] != ';';
      assert !("; " <= s);
      assert s[1..] == entry[1..] + "; " + rest;
      SplitPrefixEntry(entry[1..], rest);
      assert entry == [entry[0]] + entry[1..];
    }
  }

  // ---------------------------------------------------------------------------------------
  // Change password

  /** The JSON body of a change-password request. */
  datatype PasswordChange = PasswordChange(currentPassword: Option<string>, newPassword: Option<string>)

  /** The shortest new password the handler accepts. */
  const MinPasswordLength: nat := 6

  /** What the change-password handler replies, and the `admin` table it leaves; `salt` is bcrypt's random salt. */
  function ChangePasswordOutcome(req: Request<PasswordChange>, rows: map<string, Admin>, online: bool,
                                 h: Hasher, c: TokenCodec, now: int, salt: string): (Reply<Body>, map<string, Admin>)
  {
    if req.verb != "POST" then (Reply(405, map[], Error("Method not allowed")), rows)
    else if SessionAdminId(req.cookies, c, now).None? then (Reply(401, map[], Error("Unauthorized")), rows)
    else if !Truthy(req.body.currentPassword) || !Truthy(req.body.newPassword) then
      (Reply(400, map[], Error("Current password and new password are required")), rows)
    else if |req.body.newPassword.value| < MinPasswordLength then
      (Reply(400, map[], Error("New password must be at least 6 characters long")), rows)
    else if !online then (Reply(500, map[], Error("Internal server error")), rows)
    else
      var id := SessionAdminId(req.cookies, c, now).value;
      if id !in rows then (Reply(404, map[], Error("Admin not found")), rows)
      else if !VerifyPassword(h, req.body.currentPassword.value, rows[id].password) then
        (Reply(401, map[], Error("Current password is incorrect")), rows)
      else
        (Reply(200, map[], Body("success", "Password changed successfully", None)),
         rows[id := rows[id].(password := HashPassword(h, req.body.newPassword.value, salt))])
  }

  /** The request passes every check before the store is consulted. */
  predicate ChangeRequestAccepted(req: Request<PasswordChange>, c: TokenCodec, now: int) {
    && req.verb == "POST" && SessionAdminId(req.cookies, c, now).Some?
    && Truthy(req.body.currentPassword) && Truthy(req.body.newPassword)
    && |req.body.newPassword.value| >= MinPasswordLength
  }

  /**
   * The number of store calls change-password makes: none before the request is accepted,
   * then the lookup by id, and the update as well once the current password verifies.
   */
  function ChangePasswordQueries(req: Request<PasswordChange>, rows: map<string, Admin>, online: bool,
                                 h: Hasher, c: TokenCodec, now: int): nat
  {
    if !ChangeRequestAccepted(req, c, now) then 0
    else if !online then 1
    else
      var id := SessionAdminId(req.cookies, c, now).value;
      if id in rows && VerifyPassword(h, req.body.currentPassword.value, rows[id].password) then 2 else 1
  }

  /** pages/api/admin/change-password.ts `handler`. */
  method ChangePassword(req: Request<PasswordChange>, admins: AdminTable, res: ServerResponse<Body>,
                        h: Hasher, c: TokenCodec, now: int, salt: string)
    requires admins.Valid() && res.headers == map[] && res.body == None
    modifies res, admins
    ensures admins.Valid() && admins.online == old(admins.online)
    ensures res.Sent().Some?
    ensures (res.Sent().value, admins.rows) == ChangePasswordOutcome(req, old(admins.rows), admins.online, h, c, now, salt)
    ensures !ChangeRequestAccepted(req, c, now) ==> admins.queries == old(admins.queries)
    ensures admins.queries == old(admins.queries) + ChangePasswordQueries(req, old(admins.rows), admins.online, h, c, now)
  {
    if req.verb != "POST" {
      res.Send(405, Error("Method not allowed"));
      return;
    }
    var user := GetUserFromRequest(req.cookies, c, now);
    if user.None? || user.value.id == "" {
      res.Send(401, Error("Unauthorized"));
      return;
    }
    var current, next := req.body.currentPassword, req.body.newPassword;
    if !Truthy(current) || !Truthy(next) {
      res.Send(400, Error("Current password and new password are required"));
      return;
    }
    if |next.value| < MinPasswordLength {
      res.Send(400, Error("New password must be at least 6 characters long"));
      return;
    }
    var found, fault := admins.FindById(user.value.id);
    if fault {
      res.Send(500, Error("Internal server error"));
      return;
    }
    if found.None? {
      res.Send(404, Error("Admin not found"));
      return;
    }
    var admin := found.value;
    if !VerifyPassword(h, current.value, admin.password) {
      res.Send(401, Error("Current password is incorrect"));
      return;
    }
    var hashed := HashPassword(h, next.value, salt);
    fault := admins.UpdatePassword(admin.id, hashed);
    // The row was just read from a reachable store, so this write cannot fail in the model.
    assert !fault;
    res.Send(200, Body("success", "Password changed successfully", None));
  }

  /**
   * Every failure leaves the `admin` table as it was; in particular a non-POST request (405),
   * no identity (401 "Unauthorized"), a missing field or a new password shorter than 6 (400),
   * an unknown admin (404) and a wrong current password (401 "Current password is incorrect").
   */
  lemma ChangePasswordFailureLeavesStore(req: Request<PasswordChange>, rows: map<string, Admin>, online: bool,
                                         h: Hasher, c: TokenCodec, now: int, salt: string)
    ensures var (reply, after) := ChangePasswordOutcome(req, rows, online, h, c, now, salt);
      && (reply.code != 200 ==> after == rows)
      && (req.verb != "POST" ==> reply.code == 405)
      && (req.verb == "POST" && SessionAdminId(req.cookies, c, now).None? ==> reply == Reply(401, map[], Error("Unauthorized")))
      && (req.verb == "POST" && SessionAdminId(req.cookies, c, now).Some? && Truthy(req.body.currentPassword)
          && Truthy(req.body.newPassword) && |req.body.newPassword.value| < MinPasswordLength ==>
            reply == Reply(400, map[], Error("New password must be at least 6 characters long")))
      && (req.verb == "POST" && SessionAdminId(req.cookies, c, now).Some?
          && (!Truthy(req.body.currentPassword) || !Truthy(req.body.newPassword)) ==>
            reply == Reply(400, map[], Error("Current password and new password are required")))
      && (ChangeRequestAccepted(req, c, now) && !online ==> reply == Reply(500, map[], Error("Internal server error")))
      && (ChangeRequestAccepted(req, c, now) && online && SessionAdminId(req.cookies, c, now).value !in rows ==>
            reply == Reply(404, map[], Error("Admin not found")))
      && (ChangeRequestAccepted(req, c, now) && online && SessionAdminId(req.cookies, c, now).value in rows
          && !VerifyPassword(h, req.body.currentPassword.value, rows[SessionAdminId(req.cookies, c, now).value].password) ==>
            && reply == Reply(401, map[], Error("Current password is incorrect"))
            && reply != Reply(401, map[], Error("Unauthorized")))
  {
  }

  /**
   * A change succeeds exactly when every check passes and the current password verifies; then
   * only that admin's `password` is replaced, by a bcrypt hash of the new password, and every
   * other admin and every other field stays as it was.
   */
  lemma ChangePasswordReplacesOnlyTheHash(req: Request<PasswordChange>, rows: map<string, Admin>, online: bool,
                                          h: Hasher, c: TokenCodec, now: int, salt: string)
    requires WellFormed(rows)
    ensures var (reply, after) := ChangePasswordOutcome(req, rows, online, h, c, now, salt);
      && (reply.code == 200 <==>
            && ChangeRequestAccepted(req, c, now) && online
            && SessionAdminId(req.cookies, c, now).value in rows
            && VerifyPassword(h, req.body.currentPassword.value, rows[SessionAdminId(req.cookies, c, now).value].password))
      && (reply.code == 200 ==>
            var id := SessionAdminId(req.cookies, c, now).value;
            && after.Keys == rows.Keys
            && (forall k :: k in rows && k != id ==> after[k] == rows[k])
            && after[id].id == rows[id].id && after[id].email == rows[id].email && after[id].name == rows[id].name
            && after[id].password == HashPassword(h, req.body.newPassword.value, salt))
      && WellFormed(after)
  {
  }

  // ---------------------------------------------------------------------------------------
  // A whole session

  /**
   * Log in with the current password, change it while the session is live, log out, then log
   * in again: the old password is refused with 401 and the new one is accepted. The premise
   * that the old password does not also match the new hash is needed because bcrypt compares
   * only the first 72 bytes of a password.
   */
  lemma SessionScenario(rows: map<string, Admin>, admin: Admin, oldPassword: string, newPassword: string,
                        h: Hasher, c: TokenCodec, t0: int, t1: int, t2: int, salt: string)
    requires WellFormed(rows) && HasherSound(h) && CodecSound(c)
    requires admin.id in rows && rows[admin.id] == admin && admin.id != "" && admin.email != ""
    requires oldPassword != "" && VerifyPassword(h, oldPassword, admin.password)
    requires |newPassword| >= MinPasswordLength
    requires !VerifyPassword(h, oldPassword, HashPassword(h, newPassword, salt))
    requires t0 <= t1 < t0 + TokenLifetime
    ensures var login := LoginOutcome(Request("POST", RequestCookies(None, None),
                                              Credentials(Some(admin.email), Some(oldPassword))), rows, true, h, c, t0);
      && login.code == 200
      && var token := CreateToken(c, Identity(admin.id, admin.email, admin.name), t0);
      && login.headers["Set-Cookie"] == LoginCookie(token)
      && var change := ChangePasswordOutcome(Request("POST", RequestCookies(Some(map[SessionCookie := token]), None),
                                                     PasswordChange(Some(oldPassword), Some(newPassword))),
                                             rows, true, h, c, t1, salt);
      && change.0.code == 200
      && LogoutOutcome("POST").code == 200
      && LoginOutcome(Request("POST", RequestCookies(None, None),
                              Credentials(Some(admin.email), Some(oldPassword))), change.1, true, h, c, t2).code == 401
      && LoginOutcome(Request("POST", RequestCookies(None, None),
                              Credentials(Some(admin.email), Some(newPassword))), change.1, true, h, c, t2).code == 200
  {
    var token := CreateToken(c, Identity(admin.id, admin.email, admin.name), t0);
    var oldLogin := Request("POST", RequestCookies(None, None), Credentials(Some(admin.email), Some(oldPassword)));
    var newLogin := Request("POST", RequestCookies(None, None), Credentials(Some(admin.email), Some(newPassword)));
    assert AdminWithEmail(rows, admin.email) == Some(admin);
    LoginTokenIdentifiesAdmin(admin, c, t0, t1);
    var changeReq := Request("POST", RequestCookies(Some(map[SessionCookie := token]), None),
                             PasswordChange(Some(oldPassword), Some(newPassword)));
    assert SessionAdminId(changeReq.cookies, c, t1) == Some(admin.id);
    var after := ChangePasswordOutcome(changeReq, rows, true, h, c, t1, salt).1;
    var updated := admin.(password := HashPassword(h, newPassword, salt));
    assert after == rows[admin.id := updated];
    assert WellFormed(after);
    assert admin.id in after && after[admin.id].email == admin.email;
    var f := AdminWithEmail(after, admin.email);
    assert after[f.value.id].email == after[admin.id].email;
    assert f == Some(updated);
  }
}
