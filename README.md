# Authentication bookkeeping of the Work_Flow_app

This project is a Dafny model of the in-memory security rules of the Work_Flow_app web application:

- the per-client sliding-window `RateLimiter`;
- the three request middlewares: security headers, session refresh and a second rate limiter;
- the failed-login lockout kept by `AuthLogger`;
- the request-session helpers: the session record, the flash queue and the CSRF token;
- the password-strength rule and the role-to-permission gate;
- the decision logic of `authenticate_user` and `get_current_user`;
- the soft-delete life cycle of `BaseModel`.

Time is an integer number of seconds passed in as `now`. Nothing reads a clock.

Modules, one per source file plus two shared ones:

- `Common`: `Option`, `Result`, HTTP errors (401, 403, 429) and the JSON values a session holds.
- `TimeWindow`: the filter "keep the timestamps younger than a span" that both `check_rate_limit` and `is_account_locked` use, with its algebra.
- `RateLimit`: src/auth/rate_limit.py.
- `AuthLogging`: src/auth/logging.py.
- `Session`: src/auth/session.py. `request.session` is a `RequestSession` object whose `entries` map holds JSON values.
- `Security`: src/auth/security.py.
- `Middleware`: src/middleware.py.
- `Roles`: models/user.py.
- `Workflow`: workflow/models/base.py.

Facts about the code that the model keeps as they are:

- No operation clears a user's failure history: `AuthLogger` has no reset, so only the passage of 15 minutes unlocks an account.
- No code checks an idle timeout: `SESSION_TIMEOUT` (src/auth/session.py:7) is never read.
- There are two rate limiters with different algorithms. `RateLimiter` prunes each timestamp. `RateLimitMiddleware` forgets a client by its newest timestamp and then drops the oldest entry.
- The security headers are applied to each response that `SecurityMiddleware` handles. src/main.py:14-20 installs only `CORSMiddleware`, so nothing in the application installs `SecurityMiddleware`.
- The user-management test (tests/test_permissions.py:7-16) sends tokens whose subject is always "testuser" and whose "role" claim varies, and it expects 200 for an admin claim and 403 otherwise. No file of this core defines that route; the model takes it to be guarded by `require_permission(UserPermission.MANAGE_USERS)`. `get_current_user` reads only the "sub" claim (src/auth/security.py:32-41), so the stored user's role decides the answer and the token's "role" claim plays no part. With one stored "testuser", the three expectations cannot all hold. As the test is written, the `client` fixture (tests/conftest.py:34-45) stores no user, so `get_current_user` would answer 401 to all three tokens, and src/main.py defines no `/users/` route at all. `Security.UserManagementAccess` states what the code answers.

## Model

| member | source | states |
|---|---|---|
| `TimeWindow.Recent` | src/auth/rate_limit.py:18-21 | keeps exactly the timestamps `t` of the input with `now - t < span`, never more of them than the input holds |
| `TimeWindow.RecentTwice` | src/auth/rate_limit.py:17-21 | pruning at an earlier time and then at a later one equals pruning at the later one: a timestamp that has expired stays expired |
| `TimeWindow.RecentCountsIndices` | src/auth/logging.py:33-38 | the length of the pruned list is the number of positions that hold a recent timestamp |
| `RateLimit.Step` | src/auth/rate_limit.py:17-30 | a call is admitted exactly when fewer than `rate_limit` timestamps survive pruning. A rejected call appends nothing. An admitted call appends `now` at the end, and the stored count stays at most `rate_limit`. Every stored timestamp is younger than one minute |
| `RateLimit.ReplayStoresRecentAdmissions` | src/auth/rate_limit.py:12-30 | over any run whose clock never goes backwards, a client's stored list is exactly its admitted calls from the last minute |
| `RateLimit.AdmittedPerWindowBounded` | src/auth/rate_limit.py:17-29 | with a clock that never goes backwards, no one-minute window holds more than `rate_limit` admitted calls of one client, and holds none when the limit is not positive |
| `RateLimit.RateLimiter.constructor` | src/auth/rate_limit.py:7-10 | a new limiter holds no clients and keeps the given limit, which defaults to 60 |
| `RateLimit.RateLimiter.CheckRateLimit` | src/auth/rate_limit.py:12-30 | the client's entry becomes the kept list of `Step`. An unseen client gets an entry even when the call is rejected. The result is `Ok(true)` or the 429 error. No other client's entry changes |
| `AuthLogging.Logged` | src/auth/logging.py:20-26 | recording a failure appends `now` to the end of that user's list, creating the list if needed. Every other user's list is unchanged |
| `AuthLogging.IsLocked` | src/auth/logging.py:29-31 | a username with no recorded failures is never locked |
| `AuthLogging.LockedIffFiveRecentPositions` | src/auth/logging.py:29-38 | locked exactly when at least 5 recorded failures are strictly younger than 15 minutes |
| `AuthLogging.LoggedAllAppends` | src/auth/logging.py:23-26 | a run of failures is appended in order to that user's history. Nothing is removed and other users are untouched |
| `AuthLogging.FiveRecentFailuresLock` | src/auth/logging.py:20-38 | five failures recorded within 15 minutes before a query time lock the account at that time, whatever was recorded before them |
| `AuthLogging.LoggingNeverUnlocks` | src/auth/logging.py:26-38 | recording another failure never turns a locked answer into an unlocked one for the same query time |
| `AuthLogging.StaleFailuresUnlock` | src/auth/logging.py:33-38 | once every recorded failure is 15 minutes old or older, the account is unlocked |
| `AuthLogging.AuthLogger.constructor` | src/auth/logging.py:7-10 | a new logger has no recorded failures |
| `AuthLogging.AuthLogger.LogFailedAttempt` | src/auth/logging.py:20-26 | the new history is `Logged` of the old one |
| `AuthLogging.AuthLogger.IsAccountLocked` | src/auth/logging.py:29-38 | the answer is `IsLocked` of the current history. The method has no modifies clause, so it prunes nothing |
| `Roles.RoleFromValue` | models/user.py:9-12 | the role whose string value is given, or none when no role has that value |
| `Roles.PermissionsOf` | src/auth/security.py:144 | a role string that is no role's value gets the empty list |
| `Roles.RolePermissionsTable` | models/user.py:22-33 | `ROLE_PERMISSIONS` has exactly the three roles. ADMIN's list is every permission in declaration order, MANAGER's is create_product, edit_product, view_orders and manage_orders, and USER's is view_orders. The role strings "admin", "manager" and "user" look up those lists |
| `Roles.HasPermission` | src/auth/security.py:144-145 | the permission passes exactly when its string value is among the values of the list `ROLE_PERMISSIONS.get(role, [])` gives, which only a known role string can do |
| `Roles.TableMatchesGrants` | models/user.py:22-33 | for every role string and permission, the table grants exactly what the role-by-role relation `Grants` gives, and grants nothing to an unknown role |
| `Roles.EnumerationsClosed` | models/user.py:9-20 | there are exactly three roles and six permissions, and distinct members have distinct values |
| `Roles.AdminHoldsAll` | models/user.py:22-23 | ADMIN holds all six permissions |
| `Roles.ManagerHoldsFour` | models/user.py:24-29 | MANAGER holds exactly create_product, edit_product, view_orders and manage_orders. It holds neither delete_product nor manage_users |
| `Roles.UserHoldsViewOrdersOnly` | models/user.py:30-32 | USER holds view_orders only |
| `Roles.EveryRoleWithinAdmin` | models/user.py:22-33 | whatever any role string is granted, ADMIN is granted too |
| `Roles.OnlyAdminManagesUsers` | models/user.py:20-33 | manage_users is held by the admin role string and by no other. An unknown role is denied every permission |
| `Session.NewSessionData` | src/auth/session.py:11-16 | a new record carries the given identity and role, and its creation and last-activity times are both `now` |
| `Session.ToDict` | src/auth/session.py:18-25 | the dictionary form has exactly the five keys user_id, username, role, created_at and last_activity |
| `Session.FromDict` | src/auth/session.py:27-36 | a value is read only when it is a dictionary holding all five keys |
| `Session.FromDictToDict` | src/auth/session.py:18-36 | reading back the dictionary form returns the same user_id, username, role, created_at and last_activity |
| `Session.ToDictFromDict` | src/auth/session.py:18-36 | a dictionary that reads as a record agrees with that record's dictionary form on all five keys |
| `Session.GetSessionData` | src/auth/session.py:38-41 | the answer is absent exactly when the "session" key is absent. Otherwise it is the record `from_dict` reads, or malformed where `from_dict` raises |
| `Session.WithFlash` | src/auth/session.py:54-59 | one flash appends `{text, category}` to the end of the queue and creates the queue if it is absent. Earlier messages keep their order and no other key changes |
| `Session.FlashesKeepOrder` | src/auth/session.py:54-59 | any run of flashes queues all its messages, in order, after the ones already queued, and changes no other key |
| `Session.RequestSession.SetSessionData` | src/auth/session.py:43-44 | writes the record's dictionary form under "session", after which `get_session_data` reads back exactly that record |
| `Session.RequestSession.ClearSession` | src/auth/session.py:46-47 | the session map becomes empty, losing the record, the flash queue and the CSRF token |
| `Session.RequestSession.Flash` | src/auth/session.py:54-59 | the new session is `WithFlash` of the old one. The category defaults to "info" |
| `Session.RequestSession.GetFlashedMessages` | src/auth/session.py:61-63 | returns the whole queue in insertion order and removes the key, so an immediate second call returns [] |
| `Security.AnyInClass` | src/auth/security.py:132-137 | true exactly when some character of the string is in the class |
| `Security.ValidatePasswordStrength` | src/auth/security.py:129-138 | true exactly when the password has at least 8 characters, an upper-case letter, a lower-case letter and a digit. Any single failing condition makes it false |
| `Security.PasswordExamples` | src/auth/security.py:129-138 | the test-suite passwords "Test123!" and "Admin123!" pass and "wrongpassword" fails. Of two further examples, "Strong123" passes and "Weak1" fails |
| `Security.RequirePermission` | src/auth/security.py:140-152 | the handler's result comes back exactly when the user's role grants the permission. Otherwise the answer is 403 |
| `Security.GetCurrentUser` | src/auth/security.py:21-41 | the answer is 401 when decoding fails, when "sub" is missing or null, or when no user has that name. Otherwise it is the stored user with that name |
| `Security.CurrentUserIsSubject` | src/auth/security.py:38-41 | the user returned carries the token's subject as its username |
| `Security.AuthenticateUser` | src/auth/security.py:43-49 | the looked-up user exactly when it exists and the password verifies against its hash. Otherwise none. The active flag plays no part |
| `Security.AuthenticatedUserMatches` | src/auth/security.py:43-49 | a successful authentication returns the record of the username that was given |
| `Security.GuardedRoute` | src/auth/security.py:140-150 | a guarded route reaches its handler exactly when the current user resolves and holds the permission. Every other answer is 401 or 403 |
| `Security.UserManagementAccess` | tests/test_permissions.py:7-16 | on a route guarded by manage_users, a token whose decoded claims name a stored user as "sub" (whatever other claims it carries, such as "role" and "exp") reaches the handler when that stored user's role is admin, and gets 403 when it is manager or user. The token's own "role" claim plays no part |
| `Security.CsrfTokenGenerator.constructor` | src/auth/security.py:52-53 | keeps the secret key |
| `Security.CsrfTokenGenerator.GenerateToken` | src/auth/security.py:55-58 | stores the token under "csrf_token" and returns it. For a nonempty ASCII token, afterwards that token is the only ASCII token that validates, an empty token fails, and a non-ASCII token makes the comparison raise |
| `Security.CsrfTokenGenerator.ValidateToken` | src/auth/security.py:60-64 | false when no token is stored or either token is empty. Otherwise an error exactly when one of the two has a non-ASCII character, where `compare_digest` raises `TypeError`, and else true exactly when the two are equal |
| `Security.SecurityHeadersTable` | src/auth/security.py:85-92 | `SECURITY_HEADERS` holds exactly the six header names X-Frame-Options, X-Content-Type-Options, X-XSS-Protection, Content-Security-Policy, Strict-Transport-Security and Referrer-Policy, each with its value from the source |
| `Middleware.WithSecurityHeaders` | src/middleware.py:9-14 | every table header gets its exact value, overwriting a header of the same name. Every other header is unchanged |
| `Middleware.SecurityDispatch` | src/middleware.py:9-14 | the loop leaves the response headers equal to `WithSecurityHeaders` of the old ones, and the status is unchanged |
| `Middleware.Refreshed` | src/middleware.py:16-23 | the refreshed session stays well formed |
| `Middleware.RefreshTouchesOnlyLastActivity` | src/middleware.py:16-23 | an existing record gets `last_activity = now` and keeps user_id, username, role and created_at. Every other key is untouched. With no record nothing changes |
| `Middleware.SessionDispatch` | src/middleware.py:16-23 | the new session is `Refreshed` of the old one |
| `Middleware.Purge` | src/middleware.py:35-37 | keeps exactly the clients whose newest timestamp is younger than 60 seconds, with their lists unchanged |
| `Middleware.RateLimitMiddleware.constructor` | src/middleware.py:26-29 | a new middleware holds no clients and keeps the limit, which defaults to 60 |
| `Middleware.RateLimitMiddleware.Dispatch` | src/middleware.py:31-49 | runs after the purge. An unknown client is admitted and stored as `[now]`. A client below the limit is admitted and `now` is appended. A full client whose oldest time is under 60 seconds old gets 429 and keeps its list. Otherwise the oldest time is popped and `now` appended, so the length is unchanged. Every list stays nonempty and no longer than max(limit, 1) |
| `Workflow.BaseModel.constructor` | workflow/models/base.py:4-7 | a new object is active, with created and updated times of `now` |
| `Workflow.BaseModel.Save` | workflow/models/base.py:9-12 | changes only `updated_at` |
| `Workflow.BaseModel.Delete` | workflow/models/base.py:14-16 | sets the object inactive and refreshes `updated_at` through `save`. `created_at` is kept. Deleting again leaves the object inactive, and no operation makes it active again |

## Left out

- JWT encoding and decoding (python-jose) are left out. `GetCurrentUser` takes a `decode` function returning optional claims, so signatures, expiry and `create_test_token` are not modelled.
- bcrypt hashing and verification are left out. `AuthenticateUser` takes a `verify` predicate. `get_password_hash` and `User.verify_password` are library calls.
- `SecurityUtils.hash_password` (PBKDF2) is left out. It is a foreign call, and `hashlib.hexdigest` does not exist, so it cannot run as written.
- Random tokens are passed in as parameters. This covers `generate_token`, `generate_secure_token` and `generate_reset_token`.
- The `SecurityHeaders` class is left out. It is a second, five-entry table that nothing in this core reads; the middleware reads `SecurityConfig.SECURITY_HEADERS`.
- Other `SecurityConfig` constants are left out. `SECRET_KEY` and `ALGORITHM` serve only JWT encoding and decoding. `ACCESS_TOKEN_EXPIRE_MINUTES`, `ALLOWED_HOSTS` and `CORS_ORIGINS` are read by nothing in this core; the CORS setup in src/main.py allows every origin.
- `SessionConfig` is left out because it is never read. There is no idle timeout, and the model adds none.
- The `FlashMessage` class is left out because nothing uses it. The queue stores plain dictionaries.
- `SecurityLogger`, `logging.basicConfig` and the warning line in `log_failed_attempt` are log output. The IP address parameter feeds only that line, so it is dropped.
- Web framework plumbing is left out: `Depends`, `call_next`, `HTTPException`, CORS and static files. Errors are `Result` values. A middleware that forwards the request answers `Ok`.
- Response headers are a map with exact names. The framework's case-insensitive header comparison is not modelled.
- Concurrency is left out. Every call is one atomic step.
- Time is integer seconds. `datetime`, `time.time()` floats and sub-second precision are not modelled.
- Timestamps in the session dictionary are JSON integers. The ISO-8601 text that `isoformat` writes is not modelled.
- `AuthLogging.AuthLogger.IsAccountLocked`: Python reads the clock once per recorded attempt inside the comprehension. The model uses one `now` for the whole query.
- `Workflow.BaseModel.constructor`: the two clock reads of `__init__` are taken as one instant.
- Character classes are ASCII only. Unicode upper-case, lower-case and digit characters outside ASCII are not modelled.
- `Session.FromDict`: a wrong-type field counts as unreadable. Python would store the value unchecked, and only a bad timestamp makes it raise.
- `Security.GetCurrentUser`: a "sub" claim that is neither a string nor null is answered with 401, the answer for a rejected token. The claim checks inside the JWT library are not modelled, so this case is folded into the decision logic instead of into `decode`.
- `Security.CsrfTokenGenerator.ValidateToken` requires the session invariant, under which a stored CSRF token is a string. Python raises `TypeError` in `compare_digest` for a stored non-string value.
- The session helpers require the session invariant `WellFormed`: `Session.WithFlash`, `Session.WithFlashes`, `Session.RequestSession.Flash`, `Session.RequestSession.GetFlashedMessages`, `Session.RequestSession.SetSessionData`, `Security.CsrfTokenGenerator.GenerateToken` and `Middleware.Refreshed`, besides the two lines below. Only these helpers write the "session", "flash_messages" and "csrf_token" keys, and each keeps their shapes, so every session they see satisfies it. Python's `set_session_data`, `generate_token` and the `pop` in `get_flashed_messages` would not raise on any session, but the model does not state them for sessions outside the invariant.
- `Session.NewSessionData`: the two clock reads of `__init__` (src/auth/session.py:15-16) are taken as one instant.
- `Middleware.SessionDispatch` also requires the session invariant. A record that `from_dict` cannot read makes Python raise, and no code here writes one.
- `Middleware.RateLimitMiddleware.Dispatch`: the in-place `pop(0)`/`append` on the list shared with the dictionary becomes a reassignment of the client's entry. Nothing else holds that list, so no aliasing is lost.
- SQLAlchemy models, pydantic schemas, configuration modules and the front-end script carry no behaviour of this core.
