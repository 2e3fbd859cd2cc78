/** The account handlers: self-service registration, generic signup, login
    and password change. Password hashing is the `hash`/`check` pair of
    parameters (bcrypt's `hash`/`compareSync`), token signing the `sign`
    parameter (`jwt.sign`), token verification the `verify` parameter. */
module AuthController {
  import opened Common
  import opened Tables
  import opened AuthMiddleware

  /** The JSON body fields the account handlers read. */
  datatype UserBody = UserBody(name: Option<string>, email: Option<string>, password: Option<string>,
                               address: Option<string>, role: Option<string>)

  datatype Credentials = Credentials(email: Option<string>, password: Option<string>)

  datatype PasswordBody = PasswordBody(oldPassword: Option<string>, newPassword: Option<string>)

  /** The `user` object of a login reply. */
  datatype UserView = UserView(id: nat, name: string, role: string)

  datatype LoginReply =
    | LoginRejected(status: int, message: string)
    | LoginOk(message: string, token: string, user: UserView)

  /** `expiresIn: "8h"`, in seconds. */
  const TokenLifetime: int := 8 * 60 * 60

  const NormalUserRole: string := "normaluser"

  // ---------------------------------------------------------------- registerNormalUser

  predicate RegistrationComplete(body: UserBody)
  {
    Truthy(body.name) && Truthy(body.email) && Truthy(body.address) && Truthy(body.password)
  }

  /** The row `registerNormalUser` inserts: the role is always "normaluser". */
  function NormalUserRow(id: nat, body: UserBody, hash: string -> string): User
    requires RegistrationComplete(body)
  {
    User(id, body.name.value, body.email.value, hash(body.password.value), body.address, NormalUserRole)
  }

  method RegisterNormalUser(db: Database, body: UserBody, hash: string -> string) returns (reply: Reply)
    requires db.Valid()
    modifies db
    ensures db.Valid()
    ensures db.stores == old(db.stores) && db.ratings == old(db.ratings)
    ensures db.nextStoreId == old(db.nextStoreId) && db.nextRatingId == old(db.nextRatingId)
    ensures !RegistrationComplete(body) ==>
              reply == Msg(400, "All fields are required")
              && db.users == old(db.users) && db.nextUserId == old(db.nextUserId)
    ensures RegistrationComplete(body) && FirstUserByEmail(old(db.users), body.email.value).Some? ==>
              reply == Msg(409, "Email already registered")
              && db.users == old(db.users) && db.nextUserId == old(db.nextUserId)
    ensures RegistrationComplete(body) && FirstUserByEmail(old(db.users), body.email.value).None? ==>
              reply == Msg(201, "User registered successfully")
              && db.users == old(db.users) + [NormalUserRow(old(db.nextUserId), body, hash)]
              && db.nextUserId == old(db.nextUserId) + 1
    ensures EmailsUnique(old(db.users)) ==> EmailsUnique(db.users)
  {
    if !RegistrationComplete(body) {
      return Msg(400, "All fields are required");
    }
    if FirstUserByEmail(db.users, body.email.value).Some? {
      return Msg(409, "Email already registered");
    }
    var row := NormalUserRow(db.nextUserId, body, hash);
    if EmailsUnique(db.users) {
      InsertFreshEmailKeepsUnique(db.users, row);
    }
    var _ := db.InsertUser(row);
    reply := Msg(201, "User registered successfully");
  }

  // ---------------------------------------------------------------- signup

  predicate SignupComplete(body: UserBody)
  {
    Truthy(body.name) && Truthy(body.email) && Truthy(body.password)
  }

  /** The row `signup` inserts: the address as given (absent becomes NULL),
      the role as given or "normaluser" when it is falsy. */
  function SignupRow(id: nat, body: UserBody, hash: string -> string): User
    requires SignupComplete(body)
  {
    User(id, body.name.value, body.email.value, hash(body.password.value), body.address,
         if Truthy(body.role) then body.role.value else NormalUserRole)
  }

  method Signup(db: Database, body: UserBody, hash: string -> string) returns (reply: Reply)
    requires db.Valid()
    modifies db
    ensures db.Valid()
    ensures db.stores == old(db.stores) && db.ratings == old(db.ratings)
    ensures db.nextStoreId == old(db.nextStoreId) && db.nextRatingId == old(db.nextRatingId)
    ensures !SignupComplete(body) ==>
              reply == Msg(400, "Name, email, password required")
              && db.users == old(db.users) && db.nextUserId == old(db.nextUserId)
    ensures SignupComplete(body) ==>
              reply == MsgWithId(200, "User registered successfully", old(db.nextUserId))
              && db.users == old(db.users) + [SignupRow(old(db.nextUserId), body, hash)]
              && db.nextUserId == old(db.nextUserId) + 1
  {
    if !SignupComplete(body) {
      return Msg(400, "Name, email, password required");
    }
    var id := db.InsertUser(SignupRow(db.nextUserId, body, hash));
    reply := MsgWithId(200, "User registered successfully", id);
  }

  /** `signup` performs no duplicate check: signing up with an email that is
      already registered leaves two users with that email. */
  lemma SignupMayDuplicateEmail(users: seq<User>, id: nat, body: UserBody, hash: string -> string)
    requires SignupComplete(body)
    requires FirstUserByEmail(users, body.email.value).Some?
    ensures !EmailsUnique(users + [SignupRow(id, body, hash)])
  {
    var i := FirstUserByEmail(users, body.email.value).value;
    var t := users + [SignupRow(id, body, hash)];
    assert t[i] == users[i] && t[|users|].email == body.email.value;
  }

  // ---------------------------------------------------------------- login

  /** The claim `jwt.sign` receives for `u` at time `now`, with its 8h expiry. */
  function LoginClaim(u: User, now: int): Claim
  {
    Claim(u.id, u.role, u.name, now, now + TokenLifetime)
  }

  function Login(users: seq<User>, body: Credentials, check: (string, string) -> bool,
                 sign: Claim -> string, now: int): (r: LoginReply)
    ensures !Truthy(body.email) || !Truthy(body.password) ==>
              r == LoginRejected(400, "Email and password required")
    ensures Truthy(body.email) && Truthy(body.password) && r.LoginRejected? ==>
              r == LoginRejected(400, "Invalid credentials")
    ensures r.LoginOk? <==>
              && Truthy(body.email) && Truthy(body.password)
              && FirstUserByEmail(users, body.email.value).Some?
              && check(body.password.value, users[FirstUserByEmail(users, body.email.value).value].password)
    ensures r.LoginOk? ==>
              var u := users[FirstUserByEmail(users, body.email.value).value];
              && r.token == sign(LoginClaim(u, now))
              && r.user == UserView(u.id, u.name, u.role)
              && r.message == "Login successful"
  {
    if !Truthy(body.email) || !Truthy(body.password) then
      LoginRejected(400, "Email and password required")
    else
      match FirstUserByEmail(users, body.email.value)
      case None => LoginRejected(400, "Invalid credentials")
      case Some(i) =>
        var u := users[i];
        if !check(body.password.value, u.password) then LoginRejected(400, "Invalid credentials")
        else LoginOk("Login successful", sign(LoginClaim(u, now)), UserView(u.id, u.name, u.role))
  }

  /** Once a user registers through `registerNormalUser`, logging in with the
      same email and password succeeds, as a "normaluser", provided the
      password check accepts what the hash produced. */
  lemma LoginAfterRegistration(users: seq<User>, id: nat, body: UserBody,
                               hash: string -> string, check: (string, string) -> bool,
                               sign: Claim -> string, now: int)
    requires RegistrationComplete(body)
    requires FirstUserByEmail(users, body.email.value).None?
    requires check(body.password.value, hash(body.password.value))
    ensures var u := NormalUserRow(id, body, hash);
            Login(users + [u], Credentials(body.email, body.password), check, sign, now)
              == LoginOk("Login successful", sign(Claim(id, NormalUserRole, body.name.value, now, now + TokenLifetime)),
                         UserView(id, body.name.value, NormalUserRole))
  {
    var u := NormalUserRow(id, body, hash);
    FirstWhereAppend(users, u, (x: User) => x.email == body.email.value);
    assert FirstUserByEmail(users + [u], body.email.value) == Some(|users|);
    assert (users + [u])[|users|] == u;
  }

  /** Once a user signs up, logging in with the same email and password
      succeeds, provided the email was new and the password check accepts
      what the hash produced. The token and the reply carry the role the
      request asked for, or "normaluser" when it named none. */
  lemma LoginAfterSignup(users: seq<User>, id: nat, body: UserBody,
                         hash: string -> string, check: (string, string) -> bool,
                         sign: Claim -> string, now: int)
    requires SignupComplete(body)
    requires FirstUserByEmail(users, body.email.value).None?
    requires check(body.password.value, hash(body.password.value))
    ensures var role := if Truthy(body.role) then body.role.value else NormalUserRole;
            Login(users + [SignupRow(id, body, hash)], Credentials(body.email, body.password), check, sign, now)
              == LoginOk("Login successful", sign(Claim(id, role, body.name.value, now, now + TokenLifetime)),
                         UserView(id, body.name.value, role))
  {
    var u := SignupRow(id, body, hash);
    FirstWhereAppend(users, u, (x: User) => x.email == body.email.value);
    assert FirstUserByEmail(users + [u], body.email.value) == Some(|users|);
    assert (users + [u])[|users|] == u;
  }

  /** When a signup repeats an email already present, login keeps finding
      the older row: it succeeds exactly when the password passes the check
      against the older row's hash, and then reports the older user. */
  lemma DuplicateSignupLogsInAsOlderRow(users: seq<User>, id: nat, body: UserBody,
                                        hash: string -> string, check: (string, string) -> bool,
                                        sign: Claim -> string, now: int)
    requires SignupComplete(body)
    requires FirstUserByEmail(users, body.email.value).Some?
    ensures var k := FirstUserByEmail(users, body.email.value).value;
            var r := Login(users + [SignupRow(id, body, hash)], Credentials(body.email, body.password),
                           check, sign, now);
            && (r.LoginOk? <==> check(body.password.value, users[k].password))
            && (r.LoginOk? ==> r.user == UserView(users[k].id, users[k].name, users[k].role))
  {
    var k := FirstUserByEmail(users, body.email.value).value;
    var t := users + [SignupRow(id, body, hash)];
    assert t[k] == users[k];
    assert forall j :: 0 <= j < k ==> t[j] == users[j];
    assert FirstUserByEmail(t, body.email.value) == Some(k);
  }

  /** A token issued by `Login` opens the guard for the whole 8 hours,
      provided verification returns exactly the signed claim before its
      expiry and tokens hold no space: the guard then proceeds exactly when
      the role list is empty or holds the user's role, with `req.user` equal
      to the issued claim. */
  lemma IssuedTokenPassesGuard(users: seq<User>, body: Credentials, check: (string, string) -> bool,
                               sign: Claim -> string, verify: (string, int) -> Option<Claim>,
                               now: int, t: int, roles: seq<string>)
    requires Login(users, body, check, sign, now).LoginOk?
    requires forall c: Claim, at: int :: c.iat <= at < c.exp ==> verify(sign(c), at) == Some(c)
    requires forall c: Claim :: ' ' !in sign(c)
    requires now <= t < now + TokenLifetime
    ensures var r := Login(users, body, check, sign, now);
            var o := Guard(Some(BearerPrefix + r.token), roles, verify, t);
            && (o.Proceed? || o.Forbidden?)
            && o.user == Claim(r.user.id, r.user.role, r.user.name, now, now + TokenLifetime)
            && (o.Proceed? <==> |roles| == 0 || r.user.role in roles)
  {
    var r := Login(users, body, check, sign, now);
    var u := users[FirstUserByEmail(users, body.email.value).value];
    var c := LoginClaim(u, now);
    assert r.token == sign(c);
    BearerTokenOf(r.token);
    assert verify(sign(c), t) == Some(c);
  }

  /** After its expiry the same token is refused by the guard with 401
      "Invalid token", provided verification refuses expired tokens. */
  lemma ExpiredTokenIsInvalid(users: seq<User>, body: Credentials, check: (string, string) -> bool,
                              sign: Claim -> string, verify: (string, int) -> Option<Claim>,
                              now: int, t: int, roles: seq<string>)
    requires Login(users, body, check, sign, now).LoginOk?
    requires forall c: Claim, at: int :: at >= c.exp ==> verify(sign(c), at).None?
    requires forall c: Claim :: ' ' !in sign(c)
    requires t >= now + TokenLifetime
    ensures Guard(Some(BearerPrefix + Login(users, body, check, sign, now).token), roles, verify, t) == InvalidToken
  {
    var r := Login(users, body, check, sign, now);
    var u := users[FirstUserByEmail(users, body.email.value).value];
    assert r.token == sign(LoginClaim(u, now));
    BearerTokenOf(r.token);
  }

  // ---------------------------------------------------------------- updatePassword

  /** The checks `updatePassword` runs before it writes, in their order. */
  datatype PasswordDecision = Refused(reply: Reply) | Allowed(userId: int)

  function DecidePasswordUpdate(users: seq<User>, header: Option<string>, body: PasswordBody,
                                verify: (string, int) -> Option<Claim>, check: (string, string) -> bool,
                                now: int): (d: PasswordDecision)
    ensures !IsBearer(header) ==> d == Refused(Msg(401, "Unauthorized"))
    ensures IsBearer(header) && verify(BearerToken(header.value), now).None? ==>
              d == Refused(Msg(500, "Server error"))
    ensures d.Allowed? <==>
              && IsBearer(header) && verify(BearerToken(header.value), now).Some?
              && Truthy(body.oldPassword) && Truthy(body.newPassword)
              && FirstUserById(users, verify(BearerToken(header.value), now).value.id).Some?
              && check(body.oldPassword.value,
                       users[FirstUserById(users, verify(BearerToken(header.value), now).value.id).value].password)
    ensures IsBearer(header) && verify(BearerToken(header.value), now).Some?
            && (!Truthy(body.oldPassword) || !Truthy(body.newPassword)) ==>
              d == Refused(Msg(400, "Old and new password required"))
    ensures IsBearer(header) && verify(BearerToken(header.value), now).Some?
            && Truthy(body.oldPassword) && Truthy(body.newPassword)
            && FirstUserById(users, verify(BearerToken(header.value), now).value.id).None? ==>
              d == Refused(Msg(404, "User not found"))
    ensures IsBearer(header) && verify(BearerToken(header.value), now).Some?
            && Truthy(body.oldPassword) && Truthy(body.newPassword)
            && FirstUserById(users, verify(BearerToken(header.value), now).value.id).Some?
            && !check(body.oldPassword.value,
                      users[FirstUserById(users, verify(BearerToken(header.value), now).value.id).value].password) ==>
              d == Refused(Msg(400, "Old password is incorrect"))
    ensures d.Allowed? ==> d.userId == verify(BearerToken(header.value), now).value.id
    ensures d.Refused? ==> d.reply.status in {400, 401, 404, 500}
  {
    if !IsBearer(header) then Refused(Msg(401, "Unauthorized"))
    else
      match verify(BearerToken(header.value), now)
      // jwt.verify throws; the surrounding try/catch answers 500
      case None => Refused(Msg(500, "Server error"))
      case Some(decoded) =>
        if !Truthy(body.oldPassword) || !Truthy(body.newPassword) then
          Refused(Msg(400, "Old and new password required"))
        else
          match FirstUserById(users, decoded.id)
          case None => Refused(Msg(404, "User not found"))
          case Some(i) =>
            if !check(body.oldPassword.value, users[i].password) then
              Refused(Msg(400, "Old password is incorrect"))
            else Allowed(decoded.id)
  }

  /** `UPDATE users SET password = ? WHERE id = ?`. */
  function WithPassword(users: seq<User>, id: int, hashed: string): seq<User>
  {
    seq(|users|, i requires 0 <= i < |users| => if users[i].id == id then users[i].(password := hashed) else users[i])
  }

  /** With auto-increment ids the update replaces the stored hash of the one
      user with that id, and changes nothing else; with no such user it
      changes nothing. */
  lemma WithPasswordTouchesOneUser(users: seq<User>, id: int, hashed: string, next: nat)
    requires UserIdsValid(users, next)
    ensures FirstUserById(users, id).Some? ==>
              var k := FirstUserById(users, id).value;
              WithPassword(users, id, hashed) == users[k := users[k].(password := hashed)]
    ensures FirstUserById(users, id).None? ==> WithPassword(users, id, hashed) == users
  {
  }

  /** Changing a password keeps ids and emails, hence their invariants. */
  lemma WithPasswordKeepsInvariants(users: seq<User>, id: int, hashed: string, next: nat)
    ensures UserIdsValid(users, next) ==> UserIdsValid(WithPassword(users, id, hashed), next)
    ensures EmailsUnique(users) ==> EmailsUnique(WithPassword(users, id, hashed))
  {
  }

  method UpdatePassword(db: Database, header: Option<string>, body: PasswordBody,
                        verify: (string, int) -> Option<Claim>, hash: string -> string,
                        check: (string, string) -> bool, now: int) returns (reply: Reply)
    requires db.Valid()
    modifies db
    ensures db.Valid()
    ensures db.stores == old(db.stores) && db.ratings == old(db.ratings)
    ensures db.nextUserId == old(db.nextUserId) && db.nextStoreId == old(db.nextStoreId)
    ensures db.nextRatingId == old(db.nextRatingId)
    ensures match DecidePasswordUpdate(old(db.users), header, body, verify, check, now)
            case Refused(r) => reply == r && db.users == old(db.users)
            case Allowed(id) =>
              && reply == Msg(200, "Password updated successfully")
              && db.users == WithPassword(old(db.users), id, hash(body.newPassword.value))
    ensures EmailsUnique(old(db.users)) ==> EmailsUnique(db.users)
  {
    var decision := DecidePasswordUpdate(db.users, header, body, verify, check, now);
    match decision
    case Refused(r) =>
      reply := r;
    case Allowed(id) =>
      WithPasswordKeepsInvariants(db.users, id, hash(body.newPassword.value), db.nextUserId);
      db.users := WithPassword(db.users, id, hash(body.newPassword.value));
      reply := Msg(200, "Password updated successfully");
  }

  /** After a password change the user logs in with the new password, when
      emails are unique and the check accepts what the hash produced. */
  lemma LoginAfterPasswordChange(users: seq<User>, i: nat, newPassword: string,
                                 hash: string -> string, check: (string, string) -> bool,
                                 sign: Claim -> string, now: int)
    requires i < |users| && EmailsUnique(users)
    requires users[i].email != "" && newPassword != ""
    requires check(newPassword, hash(newPassword))
    ensures var after := WithPassword(users, users[i].id, hash(newPassword));
            var r := Login(after, Credentials(Some(users[i].email), Some(newPassword)), check, sign, now);
            r.LoginOk? && r.user == UserView(users[i].id, users[i].name, users[i].role)
  {
    var e := users[i].email;
    var after := WithPassword(users, users[i].id, hash(newPassword));
    var p := (x: User) => x.email == e;
    FirstWhereAgree(after, users, p);
    var f := FirstWhere(users, p);
    assert p(users[i]);
    assert f.Some?;
    assert f.value == i;
    assert FirstUserByEmail(after, e) == Some(i);
    assert after[i] == users[i].(password := hash(newPassword));
  }
}
