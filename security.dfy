/** The security decisions of src/auth/security.py: password strength, the permission gate of
    `require_permission`, CSRF tokens, and the decision logic of `authenticate_user` and
    `get_current_user`. The user store, bcrypt verification and JWT decoding are parameters. */
module Security {
  import opened Common
  import Roles
  import opened Session

  /** A user record as the store returns it (models/user.py `User`). */
  datatype User = User(id: int, username: string, email: string, hashedPassword: string, isActive: bool, role: string)

  /** The user store seen through `crud.get_user_by_username`: a map from username to record. */
  type UserStore = map<string, User>

  /** A store answers a lookup by username only with a record of that username. */
  predicate KeyedByUsername(users: UserStore)
  {
    forall name :: name in users ==> users[name].username == name
  }

  // ---------------------------------------------------------------- password strength

  /** The character classes of `str.isupper`, `str.islower` and `str.isdigit`, on ASCII. */
  datatype CharClass = Upper | Lower | Digit

  predicate InClass(c: char, k: CharClass)
  {
    match k
    case Upper => 'A' <= c <= 'Z'
    case Lower => 'a' <= c <= 'z'
    case Digit => '0' <= c <= '9'
  }

  /** `any(<class test> for c in s)`. */
  function AnyInClass(s: string, k: CharClass): (b: bool)
    ensures b <==> exists i :: 0 <= i < |s| && InClass(s[i], k)
    decreases |s|
  {
    if s == [] then false
    else if InClass(s[0], k) then true
    else
      var b := AnyInClass(s[1..], k);
      assert forall i :: 1 <= i < |s| ==> s[i] == s[1..][i - 1];
      b
  }

  /** `validate_password_strength`: at least 8 characters with an upper-case letter, a lower-case
      letter and a digit. */
  function ValidatePasswordStrength(password: string): (ok: bool)
    ensures ok <==>
      && |password| >= 8
      && (exists i :: 0 <= i < |password| && InClass(password[i], Upper))
      && (exists i :: 0 <= i < |password| && InClass(password[i], Lower))
      && (exists i :: 0 <= i < |password| && InClass(password[i], Digit))
  {
    if |password| < 8 then false
    else if !AnyInClass(password, Upper) then false
    else if !AnyInClass(password, Lower) then false
    else if !AnyInClass(password, Digit) then false
    else true
  }

  /** Example passwords, including those of the test suite. */
  lemma PasswordExamples()
    ensures ValidatePasswordStrength("Test123!") && ValidatePasswordStrength("Admin123!")
    ensures ValidatePasswordStrength("Strong123")
    ensures !ValidatePasswordStrength("Weak1") && !ValidatePasswordStrength("wrongpassword")
  {
    assert InClass("Test123!"[0], Upper) && InClass("Test123!"[1], Lower) && InClass("Test123!"[4], Digit);
    assert InClass("Admin123!"[0], Upper) && InClass("Admin123!"[1], Lower) && InClass("Admin123!"[5], Digit);
    assert InClass("Strong123"[0], Upper) && InClass("Strong123"[1], Lower) && InClass("Strong123"[6], Digit);
  }

  // ---------------------------------------------------------------- permission gate

  /** The wrapper `require_permission(permission)` puts around a handler: it calls the handler with the
      current user when the user's role grants the permission, and otherwise answers 403 without calling it. */
  function RequirePermission<R>(permission: Roles.UserPermission, currentUser: User, handler: User -> R): (r: Result<R>)
    ensures r.Ok? <==> Roles.HasPermission(currentUser.role, permission)
    ensures r.Ok? ==> r.value == handler(currentUser)
    ensures r.Err? ==> r.error == Forbidden
  {
    var userPermissions := Roles.PermissionsOf(currentUser.role);
    if permission !in userPermissions then Err(Forbidden) else Ok(handler(currentUser))
  }

  // ---------------------------------------------------------------- current user and login

  /** The decision of `get_current_user` once the token has gone through `decode` (None for a JWTError).
      A missing or null "sub" claim, a claim that is not a string, and an unknown username all give 401. */
  function GetCurrentUser(decode: string -> Option<map<string, Json>>, users: UserStore, token: string): (r: Result<User>)
    ensures r.Err? ==> r.error == Unauthorized
    ensures r.Ok? <==>
      decode(token).Some? && "sub" in decode(token).value && decode(token).value["sub"].JStr?
      && decode(token).value["sub"].s in users
    ensures r.Ok? ==> r.value == users[decode(token).value["sub"].s]
  {
    match decode(token)
    case None => Err(Unauthorized)
    case Some(payload) =>
      match Get(payload, "sub")
      case None => Err(Unauthorized)
      case Some(JNull) => Err(Unauthorized)
      case Some(JStr(username)) =>
        if username in users then Ok(users[username]) else Err(Unauthorized)
      case Some(_) => Err(Unauthorized)
  }

  /** The authenticated user carries the token's subject as its username. */
  lemma CurrentUserIsSubject(decode: string -> Option<map<string, Json>>, users: UserStore, token: string)
    requires KeyedByUsername(users)
    requires GetCurrentUser(decode, users, token).Ok?
    ensures JStr(GetCurrentUser(decode, users, token).value.username) == decode(token).value["sub"]
  {
  }

  /** `authenticate_user`: the stored user when it exists and the password verifies against its hash,
      otherwise None. The active flag is not consulted. */
  function AuthenticateUser(users: UserStore, verify: (string, string) -> bool, username: string, password: string): (r: Option<User>)
    ensures r.Some? <==> username in users && verify(password, users[username].hashedPassword)
    ensures r.Some? ==> r.value == users[username]
  {
    if username !in users then None
    else
      var user := users[username];
      if !verify(password, user.hashedPassword) then None else Some(user)
  }

  /** A successful login always names the user that logged in, inactive or not. */
  lemma AuthenticatedUserMatches(users: UserStore, verify: (string, string) -> bool, username: string, password: string)
    requires KeyedByUsername(users)
    requires AuthenticateUser(users, verify, username, password).Some?
    ensures AuthenticateUser(users, verify, username, password).value.username == username
  {
  }

  /** A route guarded by `require_permission`: `get_current_user` runs first (401), then the permission
      check (403), then the handler. */
  function GuardedRoute<R>(decode: string -> Option<map<string, Json>>, users: UserStore, token: string,
                           permission: Roles.UserPermission, handler: User -> R): (r: Result<R>)
    ensures r.Ok? <==>
      GetCurrentUser(decode, users, token).Ok?
      && Roles.HasPermission(GetCurrentUser(decode, users, token).value.role, permission)
    ensures r.Err? ==> r.error == Unauthorized || r.error == Forbidden
  {
    match GetCurrentUser(decode, users, token)
    case Err(e) => Err(e)
    case Ok(user) => RequirePermission(permission, user, handler)
  }

  /** The user-management test: a token for a stored admin reaches the handler, while a stored manager
      or plain user gets 403. */
  lemma UserManagementAccess<R>(decode: string -> Option<map<string, Json>>, users: UserStore, token: string,
                                handler: User -> R, name: string)
    requires decode(token).Some? && Get(decode(token).value, "sub") == Some(JStr(name))
    requires name in users
    ensures users[name].role == Roles.UserRole.Admin.Value() ==>
      GuardedRoute(decode, users, token, Roles.UserPermission.ManageUsers, handler) == Ok(handler(users[name]))
    ensures users[name].role in {Roles.UserRole.Manager.Value(), Roles.UserRole.User.Value()} ==>
      GuardedRoute(decode, users, token, Roles.UserPermission.ManageUsers, handler) == Err(Forbidden)
  {
    Roles.OnlyAdminManagesUsers(users[name].role, Roles.UserPermission.ManageUsers);
  }

  // ---------------------------------------------------------------- CSRF

  /** Every character is ASCII: `compare_digest` compares two strings only when both are. */
  predicate IsAscii(s: string)
  {
    forall i :: 0 <= i < |s| ==> s[i] < 128 as char
  }

  class CsrfTokenGenerator {
    /** Kept by the constructor as in the source; neither operation uses it. */
    const secretKey: string

    constructor (secretKey: string)
      ensures this.secretKey == secretKey
    {
      this.secretKey := secretKey;
    }

    /** `generate_token`, with the random token passed in: it is stored under "csrf_token" and returned.
        While the session is not changed again, a nonempty ASCII token (what `token_urlsafe` makes) is the
        only token that validates; an empty submitted token fails and a non-ASCII one makes the comparison raise. */
    method GenerateToken(request: RequestSession, token: string) returns (t: string)
      requires request.Valid()
      modifies request
      ensures request.Valid()
      ensures t == token
      ensures request.entries == old(request.entries)["csrf_token" := JStr(token)]
      ensures token != "" && IsAscii(token) ==>
        forall u :: ValidateToken(request, u) ==
          if u == "" then Some(false) else if IsAscii(u) then Some(u == token) else None
    {
      request.entries := request.entries["csrf_token" := JStr(token)];
      t := token;
    }

    /** `validate_token`: `Some(false)` when no token is stored or either token is empty. Otherwise `None`
        where `compare_digest` raises `TypeError` (one of the two has a non-ASCII character), and else
        whether the two are equal. */
    function ValidateToken(request: RequestSession, token: string): (r: Option<bool>)
      requires request.Valid()
      reads request
      ensures "csrf_token" !in request.entries ==> r == Some(false)
      ensures token == "" ==> r == Some(false)
      ensures r == Some(true) <==>
        "csrf_token" in request.entries && request.entries["csrf_token"] == JStr(token) && token != "" && IsAscii(token)
      ensures r.None? <==>
        && token != "" && "csrf_token" in request.entries && request.entries["csrf_token"].s != ""
        && !(IsAscii(request.entries["csrf_token"].s) && IsAscii(token))
    {
      match Get(request.entries, "csrf_token")
      case None => Some(false)
      case Some(stored) =>
        if !Truthy(stored) || token == "" then Some(false)
        else if !IsAscii(stored.s) || !IsAscii(token) then None
        else Some(stored.s == token)
    }
  }

  // ---------------------------------------------------------------- response headers

  /** `SecurityConfig.SECURITY_HEADERS`, the table `get_security_headers` returns. */
  const SecurityHeaders: map<string, string> := map[
    "X-Frame-Options" := "DENY",
    "X-Content-Type-Options" := "nosniff",
    "X-XSS-Protection" := "1; mode=block",
    "Content-Security-Policy" := "default-src 'self'",
    "Strict-Transport-Security" := "max-age=31536000; includeSubDomains",
    "Referrer-Policy" := "strict-origin-when-cross-origin"
  ]

  /** The six header names of `SECURITY_HEADERS`, each with its value. */
  lemma SecurityHeadersTable()
    ensures SecurityHeaders.Keys == {"X-Frame-Options", "X-Content-Type-Options", "X-XSS-Protection",
                                     "Content-Security-Policy", "Strict-Transport-Security", "Referrer-Policy"}
    ensures SecurityHeaders["X-Frame-Options"] == "DENY"
    ensures SecurityHeaders["X-Content-Type-Options"] == "nosniff"
    ensures SecurityHeaders["X-XSS-Protection"] == "1; mode=block"
    ensures SecurityHeaders["Content-Security-Policy"] == "default-src 'self'"
    ensures SecurityHeaders["Strict-Transport-Security"] == "max-age=31536000; includeSubDomains"
    ensures SecurityHeaders["Referrer-Policy"] == "strict-origin-when-cross-origin"
  {
  }
}
