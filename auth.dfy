/** The decision logic of the account endpoints
    (server/src/controllers/authController.js): `register`, `login`,
    `changePassword` and `refreshToken`. The user collection is a class
    whose methods change it in place. Password hashing, token signing and
    the User model's lock bookkeeping are not part of this model: the stored
    password is compared by equality, a decoded token is a parameter, and
    the lock is a field. */
module AuthController {
  import opened Wrappers
  import Strings
  import opened Documents
  import CatalogStore
  import Validation
  import opened Http

  datatype User = User(
    id: Id,
    name: string,
    email: string,
    password: string,
    role: string,
    phone: Option<string>,
    isActive: bool,
    locked: bool,
    loginAttempts: nat,
    lastLogin: Option<int>)

  function UserId(u: User): Id { u.id }
  function Email(u: User): string { u.email }

  /** A status and the `message` of the response body. */
  datatype Reply = Reply(status: int, message: string)

  const InvalidCredentials := "Invalid email or password"
  const AccountLocked := "Account is temporarily locked due to too many failed login attempts"
  const AccountDeactivated := "Account is deactivated"
  const LoginSuccessful := "Login successful"
  const ValidationFailed := "Validation failed"

  /* ---------------- register ---------------- */

  /** `role || 'user'`: an absent or empty role becomes "user". */
  function RoleOrDefault(role: Option<string>): (r: string)
    ensures role.None? || role.value == "" ==> r == "user"
    ensures role.Some? && role.value != "" ==> r == role.value
  {
    if role.Some? && role.value != "" then role.value else "user"
  }

  /** The account `register` saves: the name as the `trim` sanitizer left
      it, the role defaulted, active, unlocked, no failed attempts, and the
      registration time as its last login. */
  function NewUser(users: seq<User>, body: Validation.RegisterBody, email: string, now: int): (u: User)
    ensures forall i :: 0 <= i < |users| ==> users[i].id < u.id
    ensures u.email == email && u.name == Strings.Trim(body.name) && u.role == RoleOrDefault(body.role)
    ensures u.isActive && !u.locked && u.loginAttempts == 0 && u.lastLogin == Some(now)
  {
    User(CatalogStore.NextId(users, UserId), Strings.Trim(body.name), email, body.password,
      RoleOrDefault(body.role), body.phone, true, false, 0, Some(now))
  }

  /** A registration the validators accept creates an account whose role
      is one of the three the application knows. */
  lemma RegisteredRoleKnown(users: seq<User>, body: Validation.RegisterBody, email: string, now: int)
    requires Validation.RegisterOk(body)
    ensures NewUser(users, body, email, now).role in Validation.Roles
  {
    Validation.RegisteredRole(body);
    if body.role.Some? {
      assert body.role.value in Validation.Roles;
    }
  }

  /* ---------------- login ---------------- */

  /** `login`'s answer, with its guards in the handler's order: an unknown
      email, then the lock, then the active flag, all before the password is
      compared. */
  function LoginReply(users: seq<User>, email: string, password: string): (r: Reply)
    ensures r.status == Ok200 <==>
      && CatalogStore.IndexOf(users, Email, email).Some?
      && var u := users[CatalogStore.IndexOf(users, Email, email).value];
         !u.locked && u.isActive && u.password == password
    ensures r.status == Locked423 <==>
      CatalogStore.IndexOf(users, Email, email).Some? && users[CatalogStore.IndexOf(users, Email, email).value].locked
    ensures r.status in {Ok200, Unauthorized401, Locked423}
  {
    match CatalogStore.IndexOf(users, Email, email)
    case None => Reply(Unauthorized401, InvalidCredentials)
    case Some(i) =>
      var u := users[i];
      if u.locked then Reply(Locked423, AccountLocked)
      else if !u.isActive then Reply(Unauthorized401, AccountDeactivated)
      else if u.password != password then Reply(Unauthorized401, InvalidCredentials)
      else Reply(Ok200, LoginSuccessful)
  }

  /** What `login` writes: a wrong password increments the account's
      attempt counter; a success resets the counter (when it is not already
      zero) and records the login time; nothing else changes. */
  function LoginEffect(users: seq<User>, email: string, password: string, now: int): (r: seq<User>)
    ensures |r| == |users|
    ensures forall j :: 0 <= j < |users| ==> r[j].id == users[j].id && r[j].email == users[j].email
    ensures CatalogStore.IndexOf(users, Email, email).None? ==> r == users
    ensures CatalogStore.IndexOf(users, Email, email).Some? ==>
      var i := CatalogStore.IndexOf(users, Email, email).value;
      var u := users[i];
      && (forall j :: 0 <= j < |users| && j != i ==> r[j] == users[j])
      && (u.locked || !u.isActive ==> r == users)
      && (!u.locked && u.isActive && u.password != password ==>
            r[i] == u.(loginAttempts := u.loginAttempts + 1))
      && (!u.locked && u.isActive && u.password == password ==>
            r[i] == u.(loginAttempts := 0, lastLogin := Some(now)))
  {
    match CatalogStore.IndexOf(users, Email, email)
    case None => users
    case Some(i) =>
      var u := users[i];
      if u.locked || !u.isActive then users
      else if u.password != password then users[i := u.(loginAttempts := u.loginAttempts + 1)]
      else
        var reset := if u.loginAttempts > 0 then u.(loginAttempts := 0) else u;
        users[i := reset.(lastLogin := Some(now))]
  }

  /** A locked or deactivated account gets the same answer whatever
      password is sent, and nothing is written. */
  lemma GuardsPrecedePassword(users: seq<User>, email: string, p1: string, p2: string, now: int)
    requires CatalogStore.IndexOf(users, Email, email).Some?
    requires var u := users[CatalogStore.IndexOf(users, Email, email).value]; u.locked || !u.isActive
    ensures LoginReply(users, email, p1) == LoginReply(users, email, p2)
    ensures LoginEffect(users, email, p1, now) == users
  {
  }

  /** An unknown email and a wrong password for an open account are
      answered identically, so a reply does not tell which accounts exist. */
  lemma UnknownEmailLikeWrongPassword(users: seq<User>, unknown: string, p1: string, known: string, p2: string)
    requires CatalogStore.IndexOf(users, Email, unknown).None?
    requires CatalogStore.IndexOf(users, Email, known).Some?
    requires var u := users[CatalogStore.IndexOf(users, Email, known).value];
      !u.locked && u.isActive && u.password != p2
    ensures LoginReply(users, unknown, p1) == LoginReply(users, known, p2) == Reply(Unauthorized401, InvalidCredentials)
  {
  }

  /* ---------------- refresh ---------------- */

  /** The payload `jwt.verify` returns for a token it accepts. */
  datatype Claims = Claims(userId: Id, tokenType: string)

  /** `refreshToken`. `token` is the body's `refreshToken` ("" when absent)
      and `decoded` what verifying it gives, `None` when verification throws
      (a bad signature or an expired token). */
  function RefreshStatus(users: seq<User>, token: string, decoded: Option<Claims>): (status: int)
    ensures status == Ok200 <==>
      && token != "" && decoded.Some? && decoded.value.tokenType == "refresh"
      && CatalogStore.IndexOf(users, UserId, decoded.value.userId).Some?
      && users[CatalogStore.IndexOf(users, UserId, decoded.value.userId).value].isActive
    ensures token == "" ==> status == BadRequest400
    ensures token != "" && decoded.None? ==> status == Unauthorized401
    ensures token != "" && decoded.Some? && decoded.value.tokenType != "refresh" ==> status == BadRequest400
    ensures token != "" && decoded.Some? && decoded.value.tokenType == "refresh"
            && (|| CatalogStore.IndexOf(users, UserId, decoded.value.userId).None?
                || !users[CatalogStore.IndexOf(users, UserId, decoded.value.userId).value].isActive) ==>
      status == Unauthorized401
    ensures status in {Ok200, BadRequest400, Unauthorized401}
  {
    if token == "" then BadRequest400
    else if decoded.None? then Unauthorized401
    else if decoded.value.tokenType != "refresh" then BadRequest400
    else match CatalogStore.IndexOf(users, UserId, decoded.value.userId)
      case None => Unauthorized401
      case Some(i) => if users[i].isActive then Ok200 else Unauthorized401
  }

  /** An access token cannot be traded for new tokens, whoever it names. */
  lemma AccessTokenRefused(users: seq<User>, token: string, userId: Id)
    requires token != ""
    ensures RefreshStatus(users, token, Some(Claims(userId, "access"))) == BadRequest400
  {
  }

  /* ---------------- the collection ---------------- */

  /** A key shared by no other document stays unique when the document is
      rewritten with the same key. */
  lemma UniqueRewrite<K>(s: seq<User>, key: User -> K, i: nat, x: User)
    requires CatalogStore.Unique(s, key) && i < |s| && key(x) == key(s[i])
    ensures CatalogStore.Unique(s[i := x], key)
  {
    forall j | 0 <= j < |s| && j != i ensures key(s[j]) != key(x) {
      if j < i { assert key(s[j]) != key(s[i]); } else { assert key(s[i]) != key(s[j]); }
    }
    CatalogStore.UniqueUpdate(s, key, i, x);
  }

  class UserAccounts {
    var users: seq<User>

    /** Ids are unique and so are emails (the unique index). */
    ghost predicate Valid()
      reads this
    {
      CatalogStore.Unique(users, UserId) && CatalogStore.Unique(users, Email)
    }

    constructor()
      ensures Valid() && users == []
    {
      users := [];
    }

    /** `register`: 400 when the validators refuse the body, 409 when an
        account has the email (no account is created), otherwise the new
        account is appended. */
    method Register(body: Validation.RegisterBody, email: string, now: int) returns (status: int, created: Option<User>)
      requires Valid()
      modifies this
      ensures Valid()
      ensures !Validation.RegisterOk(body) ==> status == BadRequest400
      ensures Validation.RegisterOk(body) && CatalogStore.IndexOf(old(users), Email, email).Some? ==> status == Conflict409
      ensures status != Created201 ==> created.None? && users == old(users)
      ensures Validation.RegisterOk(body) && CatalogStore.IndexOf(old(users), Email, email).None? ==>
        && status == Created201
        && created == Some(NewUser(old(users), body, email, now))
        && users == old(users) + [created.value]
    {
      if !Validation.RegisterOk(body) {
        return BadRequest400, None;
      }
      if CatalogStore.IndexOf(users, Email, email).Some? {
        return Conflict409, None;
      }
      var u := NewUser(users, body, email, now);
      CatalogStore.UniqueAppend(users, UserId, u);
      CatalogStore.UniqueAppend(users, Email, u);
      users := users + [u];
      return Created201, Some(u);
    }

    /** `login`: the reply of `LoginReply` and the writes of `LoginEffect`,
        applied to the stored account one guard at a time. */
    method Login(validated: bool, email: string, password: string, now: int) returns (r: Reply)
      requires Valid()
      modifies this
      ensures Valid()
      ensures !validated ==> r == Reply(BadRequest400, ValidationFailed) && users == old(users)
      ensures validated ==>
        r == LoginReply(old(users), email, password) && users == LoginEffect(old(users), email, password, now)
    {
      if !validated {
        return Reply(BadRequest400, ValidationFailed);
      }
      var found := CatalogStore.IndexOf(users, Email, email);
      if found.None? {
        return Reply(Unauthorized401, InvalidCredentials);
      }
      var i := found.value;
      var u := users[i];
      if u.locked {
        return Reply(Locked423, AccountLocked);
      }
      if !u.isActive {
        return Reply(Unauthorized401, AccountDeactivated);
      }
      if u.password != password {
        Save(i, u.(loginAttempts := u.loginAttempts + 1));
        return Reply(Unauthorized401, InvalidCredentials);
      }
      if u.loginAttempts > 0 {
        u := u.(loginAttempts := 0);
        Save(i, u);
      }
      Save(i, u.(lastLogin := Some(now)));
      return Reply(Ok200, LoginSuccessful);
    }

    /** `changePassword`: 400 when the validators refuse the body, 404 for
        an unknown account, 400 with nothing changed when the current
        password is wrong; otherwise the password is replaced. */
    method ChangePassword(userId: Id, currentPassword: string, newPassword: string) returns (status: int)
      requires Valid()
      modifies this
      ensures Valid()
      ensures !Validation.ChangePasswordOk(currentPassword, newPassword) ==> status == BadRequest400
      ensures status != Ok200 ==> users == old(users)
      ensures Validation.ChangePasswordOk(currentPassword, newPassword) ==>
        match CatalogStore.IndexOf(old(users), UserId, userId)
        case None => status == NotFound404
        case Some(i) =>
          if old(users)[i].password != currentPassword then status == BadRequest400
          else status == Ok200 && users == old(users)[i := old(users)[i].(password := newPassword)]
    {
      if !Validation.ChangePasswordOk(currentPassword, newPassword) {
        return BadRequest400;
      }
      var found := CatalogStore.IndexOf(users, UserId, userId);
      if found.None? {
        return NotFound404;
      }
      var i := found.value;
      if users[i].password != currentPassword {
        return BadRequest400;
      }
      Save(i, users[i].(password := newPassword));
      return Ok200;
    }

    /** `user.save()` on a loaded account: the document is written back in
        place, with its id and email. */
    method Save(i: nat, u: User)
      requires Valid() && i < |users| && u.id == users[i].id && u.email == users[i].email
      modifies this
      ensures Valid()
      ensures users == old(users)[i := u]
    {
      UniqueRewrite(users, UserId, i, u);
      UniqueRewrite(users, Email, i, u);
      users := users[i := u];
    }
  }
}
