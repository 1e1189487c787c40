# Universitas admin: authentication kernel, validators and selection lists

This project models the decision logic of the "Universitas" public-procurement admin front end, a Next.js application, in Dafny. It also proves properties of that model. The model covers:

- **Routes.** The route tables, and the two classifiers over them: `isPublicRoute` and `isRouteAllowedForRole`.
- **Guards.** The edge guard `proxy`, with its five-way cascade, and the layout guard `enforceRoleAccess`.
- **Session verification.** `verifySession` turns decoded JWT claims and the current time into a session. The claims are `exp` and `iat`, from sections 4.1.4 and 4.1.6 of RFC 7519, plus the backend's `userId`, `email` and `rol`.
- **Cookies.** The cookie helpers and the `authStorage` facade. They sit over a browser cookie jar, which `document.cookie` reads back as `name=value` pairs joined by `"; "` (section 5.4 of RFC 6265).
- **Auth store.** The store holds `user`, `isAuthenticated`, `isLoading` and `error`. It is driven by `login`, `logout`, `checkAuth` and `clearError`.
- **Services.** The error-to-message mapping of the ente and supervisor services.
- **Schemas.** The zod field checks: length bounds, the RIF pattern `^[JGVE]-\d{8,9}-\d$`, and the `entesIds` default.
- **Login form.** Its guards, including the email regular expression.
- **Ente selection.** The lists shared by the supervisor form and the selection sheet.
- **Header.** The avatar initials and the logout handler.

Each source file takes one of two shapes in the model:

- **Pure code becomes functions.** Route classification, session verification, the proxy, the guard, the message mappings, the schemas and `getInitials` are functions and predicates, with lemmas about them.
- **State that is overwritten becomes a class.** These are the cookie jar (`Cookies.CookieJar`), the auth store (`Store.AuthStore`), the supervisor form (`SupervisorForm.CreateSupervisorForm`), the selection sheet (`EntesSheet.SelectEntesSheet`) and the login form's fields (`LoginForm.LoginFormState`). Each handler is a method whose `ensures` gives the whole new state.

The asynchronous handlers are split at their `await` into a `…Begin` and an `…End` method: `login`, the supervisor `onSubmit` and `fetchAvailableEntes`. The `…End` method takes the awaited call's outcome (`Http.Outcome`) as input.

The model takes several things as parameters rather than modelling them:

- **JWT decoding** (`jwtDecode`) is the function parameter `decode`. `None` means decoding threw.
- **The clock.** `Date.now()` is the parameter `nowMs`.
- **The user codec.** JSON plus URI encoding of the cached user is a pair of functions (`Cookies.UserCodec`). The lemmas that read the user back assume its round trip (`Cookies.Sound`).
- **zod's `.email()` and `.uuid()`** are the predicates `isEmail` and `isUuid`.

## Model

| member | source | states |
|---|---|---|
| Text.JoinSplit | src/utils/cookies.ts:35-36 | joining the parts of `s.split(sep)` with `sep` gives `s` back |
| Text.SplitPartsFree | src/utils/cookies.ts:36 | no part of a split contains the separator |
| Text.SplitHead | src/lib/constants/routes.ts:52 | `s.split(c)[0]` is the text before the first `c`, or all of `s` |
| Text.SplitNoChar | src/components/layout/Header.tsx:48 | a string without the separator character splits into itself alone |
| Routes.GetDashboardRoute | src/lib/constants/routes.ts:37-39 | returns `/dashboard`, a route under the dashboard without a query |
| Routes.GetRoleRoutes | src/lib/constants/routes.ts:44-46 | the four role routes all lie under `/dashboard`, the first being `/dashboard` itself |
| Routes.NormalizeText | src/lib/constants/routes.ts:52 | the normalised path is the text before the first `?`, and has no `?` |
| Routes.NormalizeNoQuery | src/lib/constants/routes.ts:52 | a path without `?` normalises to itself |
| Routes.NormalizeIdempotent | src/lib/constants/routes.ts:52 | normalising twice is normalising once |
| Routes.QueryIgnored | src/lib/constants/routes.ts:51-55 | `isRouteAllowedForRole(p)` equals `isRouteAllowedForRole(p.split('?')[0])` |
| Routes.IsRouteAllowedForRole | src/lib/constants/routes.ts:51-55 | a route is allowed exactly when its part before `?` starts with `/dashboard` |
| Routes.UnderFirstRoute | src/lib/constants/routes.ts:20-27 | prefix matching against a table whose first route prefixes all the others is matching that first route |
| Routes.AllowedPlain | src/lib/constants/routes.ts:51-55 | a path without a query is allowed exactly when it starts with `/dashboard` |
| Routes.DashboardRouteAllowed | src/lib/constants/routes.ts:37-39 | `getDashboardRoute()` is allowed for the role |
| Routes.RoleRoutesAllowed | src/lib/constants/routes.ts:44-55 | every value of `getRoleRoutes()` is allowed |
| Routes.SidebarAllowed | src/config/sidebar-config.ts:17-48 | every sidebar link is allowed, including `/dashboard/ente` and `/dashboard/supervisor`, which are not role routes |
| Routes.PublicRoutesPublic | src/lib/constants/routes.ts:60-64 | a path equal to, or starting with, `/login` or `/` is public |
| Routes.IsPublicRoute | src/lib/constants/routes.ts:60-64 | as written, a path is public exactly when it starts with `/` |
| Routes.PublicTableRooted | src/lib/constants/routes.ts:32 | matching `PUBLIC_ROUTES` by equality or prefix is the test for a leading `/` |
| Routes.DashboardPublicAsWritten | src/lib/constants/routes.ts:32 | as written, `/dashboard/usuarios` is public |
| Routes.IntendedIff | src/lib/constants/routes.ts:32 | the intended public test admits `/` itself and everything starting with `/login` |
| Routes.DashboardNotPublicIntended | src/lib/constants/routes.ts:60-64 | under the intended test, nothing under `/dashboard` is public |
| Session.VerifySession | src/lib/auth/session.ts:20-54 | a session results exactly when the token decodes, is not expired, has role UNIVERSITAS and an email. `userId`, `email`, `iat` and `exp` are copied, and the role is UNIVERSITAS |
| Session.EmailNameIsLocalPart | src/lib/auth/session.ts:46 | `email.split('@')[0]` is the email up to its first `@` (or all of it) and holds no `@` |
| Session.VerifyName | src/lib/auth/session.ts:46 | a session's name is its email up to the first `@` |
| Session.ExpiredRejected | src/lib/auth/session.ts:27-33 | a present, non-zero `exp` before now gives no session |
| Session.ExpiryBoundaryAccepted | src/lib/auth/session.ts:29 | `exp` equal to now is accepted, since the comparison is strict |
| Session.NoExpiryTimeless | src/lib/auth/session.ts:27 | a missing or zero `exp` makes the result independent of the time |
| Session.WrongRoleRejected | src/lib/auth/session.ts:36-39 | any role but UNIVERSITAS gives no session, whatever `exp` says |
| Session.DecodeFailureRejected | src/lib/auth/session.ts:50-53 | a token that fails to decode gives no session |
| Proxy.Cascade | proxy.ts:10-57 | pass-through exactly for a public path, or for a non-empty token with a verified session on an allowed route. The only targets are `/login` and `/dashboard`. `/dashboard` is chosen exactly for a verified session on a route that is not allowed. Cookies are deleted exactly in the invalid-session branch, and then both of them |
| Proxy.ProxyAsWritten | proxy.ts:10-57 | as written, a request passes exactly when its path starts with `/` or it carries a verified token for a route of the role |
| Proxy.Proxy | proxy.ts:10-57 | with the intended public test, a request passes exactly for `/`, a login page, or a verified token on a route of the role |
| Proxy.NoTokenToLogin | proxy.ts:19-27 | a protected path without a token redirects to `/login` and deletes nothing |
| Proxy.RootedPathsPassAsWritten | proxy.ts:14-16 | as written, every path starting with `/` passes, with or without a cookie |
| Proxy.DashboardWithoutCookieAsWritten | proxy.ts:14-16 | as written, `/dashboard/usuarios` without a cookie passes |
| Proxy.DashboardWithoutCookieIntended | proxy.ts:19-27 | with the intended public test, a dashboard path without a token goes to `/login` |
| Proxy.DashboardNeedsSession | proxy.ts:33-56 | with the intended public test, a dashboard path passes exactly when its token verifies |
| RoleGuard.EnforceRoleAccess | src/lib/auth/roleGuard.ts:10-27 | the only redirect is to `/login`. There is none exactly when a user with role UNIVERSITAS is present |
| RoleGuard.VerifiedSessionPasses | src/lib/auth/roleGuard.ts:17 | a session produced by `verifySession` never trips the role barrier |
| Cookies.StoredValue | src/utils/cookies.ts:21-25 | the value a browser stores for an assignment has no `;` and no surrounding white space, and a value that already has neither is stored unchanged |
| Cookies.ApplyMap | src/utils/cookies.ts:21 | an assignment to `document.cookie` keeps the jar valid. It removes the name when the write expires it, and otherwise stores the value up to its first `;`, trimmed |
| Cookies.ReadCookie | src/utils/cookies.ts:35-42 | a value read back is non-empty and has no `;` |
| Cookies.ReadSerialized | src/utils/cookies.ts:32-43 | reading a name back from `document.cookie` gives the jar's value exactly when that value is present and non-empty |
| Cookies.ReadDuplicated | src/utils/cookies.ts:38 | a name that occurs twice in the cookie string reads as null |
| Cookies.SuffixNameIgnored | src/utils/cookies.ts:35-36 | a cookie named `xaccess_token` is not read as the token |
| Cookies.AuthOptionsText | src/utils/cookies.ts:16-18 | the options are `; Max-Age=604800; Path=/; SameSite=Strict`, with `; Secure` only in production |
| Cookies.SetWriteStrings | src/utils/cookies.ts:21-25 | the two writes are `access_token=<token>` and `user_session=<encoded user>`, each followed by the options |
| Cookies.ClearWriteStrings | src/utils/cookies.ts:76-78 | the clearing writes are `name=; expires=Thu, 01 Jan 1970 00:00:00 UTC; Path=/; SameSite=Strict` |
| Cookies.AuthOptionsKeep | src/utils/cookies.ts:16-18 | the options' `Max-Age` is 604800, so the writes store and do not expire |
| Cookies.ClearDeletes | src/utils/cookies.ts:76-78 | the 1970 date without `Max-Age` expires the cookie |
| Cookies.CookieJar.Assign | src/utils/cookies.ts:21 | the jar becomes the browser's application of the write, and its map view loses the name or maps it to the stored value |
| Cookies.SetAuthCookies | src/utils/cookies.ts:13-26 | with a document, both cookies are stored, each as the value the browser keeps for the write; without one, nothing changes |
| Cookies.ClearAuthCookies | src/utils/cookies.ts:73-79 | both names leave the jar, and nothing else changes |
| Cookies.ReadJar | src/utils/cookies.ts:32-43 | on a valid jar, splitting `document.cookie` for a name gives the map view's non-empty value for it, or nothing |
| Cookies.GetAuthToken | src/utils/cookies.ts:32-43 | on a valid jar, `getAuthToken()` is the stored non-empty token, or null. A token is only ever seen with a document, and it is non-empty and `;`-free |
| Cookies.GetUserSession | src/utils/cookies.ts:49-68 | on a valid jar, `getUserSession()` decodes the stored non-empty user cookie, or is null. It is always null without a document |
| Cookies.HasActiveSession | src/utils/cookies.ts:85-90 | on a valid jar, an active session is a non-empty stored token plus a user cookie that decodes to a user of role UNIVERSITAS |
| AuthStorage.GetToken | src/storage/authStorage.ts:32-34 | on a valid jar, the stored non-empty token, or null |
| AuthStorage.GetUser | src/storage/authStorage.ts:40-42 | on a valid jar, the decoding of the stored non-empty user cookie, or null |
| AuthStorage.SaveAuth | src/storage/authStorage.ts:24-26 | the jar maps both names to their stored values. A non-empty token with no `;` and no surrounding white space reads back from `getToken()`. Under a sound codec, `getUser()` returns the user |
| AuthStorage.ClearAuth | src/storage/authStorage.ts:47-49 | afterwards there is no token, no user, no valid session and no role |
| AuthStorage.HasValidSession | src/storage/authStorage.ts:55-59 | on a valid jar, a valid session is a non-empty stored token plus a user cookie that decodes. No role is checked |
| AuthStorage.HasRole | src/storage/authStorage.ts:66-69 | on a valid jar, `hasRole(r)` holds exactly when the stored user cookie decodes to a user of role `r`, and is false without a user |
| AuthStorage.ActiveIsValidWithRole | src/storage/authStorage.ts:55-59 | `hasActiveSession` is `hasValidSession` plus `hasRole('UNIVERSITAS')` |
| Store.InitialState | src/store/useAuthStore.ts:10-34 | the initial state is either signed out or authenticated with the stored user |
| Store.InitialStateActive | src/store/useAuthStore.ts:17 | the store starts authenticated exactly when the cookies hold an active session, and is otherwise fully signed out |
| Store.Rethrown | src/store/useAuthStore.ts:59-67 | `login` resolves exactly for a UNIVERSITAS user. It rethrows the role error for any other user, and the backend's error otherwise |
| Store.AuthStore.constructor | src/store/useAuthStore.ts:46-48 | the store starts in `getInitialState()` and is valid |
| Store.AuthStore.LoginBegin | src/store/useAuthStore.ts:55 | loading is set and the error cleared; nothing else changes |
| Store.AuthStore.LoginEnd | src/store/useAuthStore.ts:57-115 | three outcomes. A UNIVERSITAS user is saved (each cookie as the browser stores it) and authenticated, and a clean token reads back; other roles are never saved and get the permission error; a backend failure gets the extracted message. Both failures are rethrown |
| Store.AuthStore.Logout | src/store/useAuthStore.ts:121-135 | cookies cleared and the state signed out |
| Store.AuthStore.CheckAuth | src/store/useAuthStore.ts:141-174 | the three outcomes. No valid session: signed out, cookies untouched. A stored user of another role: cookies cleared. Otherwise: authenticated with the stored user |
| Store.AuthStore.ClearError | src/store/useAuthStore.ts:179-181 | only `error` changes, to null |
| Http.MessageOr | src/store/useAuthStore.ts:81-104 | the message precedence: a string body message, then the default if there is a response, then the error's own message. A body message that is not a string is ignored |
| Http.ErrorWithMessage | src/store/useAuthStore.ts:101-103 | the message of a thrown `new Error(m)` is extracted as `m` |
| EnteService.CreateErrorMessage | src/services/enteService.ts:39-68 | 403 maps to the authorisation message regardless of body. Another response with a body maps to its truthy message (a non-string one as its `String()` text) or the default. Anything else maps to the connection message. The result is empty only for a truthy message whose text is empty |
| EnteService.FetchErrorMessage | src/services/enteService.ts:84-102 | a body gives its truthy message or the fetch default; anything else gives the connection message. The result is empty only for a truthy message whose text is empty |
| EnteService.Create | src/services/enteService.ts:35-69 | success returns the body unchanged; failure throws the mapped message |
| EnteService.GetEntesSinSupervisor | src/services/enteService.ts:78-103 | success returns the list unchanged; failure throws the mapped message |
| EnteService.ForbiddenIgnoresBody | src/services/enteService.ts:41-51 | two 403 errors give the same message whatever their bodies |
| EnteService.NonStringMessageShown | src/services/enteService.ts:62-63 | a body message that is not a string still becomes the thrown text, while the store's extraction falls back to its default |
| EnteService.FetchHasNoForbiddenCase | src/services/enteService.ts:86-98 | a 403 during the fetch shows the body's message, unlike `create` |
| SupervisorService.CreateErrorMessage | src/services/supervisorService.ts:36-78 | 400 and 409 map to their fixed messages before any body is read. Otherwise a body's truthy message or the default; no usable response gives the connection message. The result is empty only for a truthy message whose text is empty |
| SupervisorService.Create | src/services/supervisorService.ts:27-79 | success returns the body unchanged; failure throws the mapped message |
| SupervisorService.CreateMessageShown | src/components/forms/CreateSupervisorForm.tsx:92-96 | the caller sees exactly the message the service chose |
| Validation.Issues | src/schemas/ente.schema.ts:5-9 | no issue exactly when every check passes; at most one issue per check |
| Validation.IssueMessages | src/schemas/ente.schema.ts:5-9 | every issue reported is the message of a check that fails |
| Validation.LengthChecksAccept | src/schemas/supervisor.schema.ts:9-13 | any `.min(1).min(lo).max(hi)` chain with `lo >= 1`, whatever its messages, accepts exactly the lengths from `lo` to `hi` |
| Validation.BoundedAccepts | src/schemas/ente.schema.ts:5-9 | a `.min(1).min(lo).max(hi)` field accepts exactly the lengths from `lo` to `hi` |
| Validation.EmptyReportsTwice | src/schemas/supervisor.schema.ts:9-13 | an empty string reports both the required and the too-short message |
| Validation.RequiredAnd | src/schemas/ente.schema.ts:11-14 | a required field with a format check accepts exactly a non-empty string that passes the check |
| EnteSchema.EnteAcceptedIff | src/schemas/ente.schema.ts:3-44 | accepted exactly when `nombre` has 3..255 characters, `emailContacto` is a non-empty email, `password` is non-empty, and both admin names have 2..100 characters |
| EnteSchema.OptionalFieldsUnchecked | src/schemas/ente.schema.ts:31-43 | `rif`, `siglas`, `direccionFiscal`, `estado`, `municipio` and `parroquia` never affect the verdict |
| SupervisorSchema.IsRifIff | src/schemas/supervisor.schema.ts:15-18 | the positional RIF test is the regular expression |
| SupervisorSchema.RifLength | src/schemas/supervisor.schema.ts:18 | a RIF has 12 or 13 characters |
| SupervisorSchema.RifExample | src/schemas/supervisor.schema.ts:18 | `J-12345678-9` is a RIF |
| SupervisorSchema.ParseSupervisor | src/schemas/supervisor.schema.ts:7-47 | parsed data keeps every string field. Its `entesIds` are the given ones, or `[]` when absent, and all are UUIDs. A rejection has a field issue or an id that is not a UUID |
| SupervisorSchema.NoIssuesIff | src/schemas/supervisor.schema.ts:7-45 | the string fields raise no issue exactly when each meets its bounds, the RIF pattern, the email test or the non-empty password rule |
| SupervisorSchema.SupervisorAcceptedIff | src/schemas/supervisor.schema.ts:7-47 | accepted exactly when every field meets its bounds, the RIF pattern and the email test, and every id is a UUID. The parsed data keeps the values |
| SupervisorSchema.EntesIdsDefault | src/schemas/supervisor.schema.ts:46 | leaving `entesIds` out parses to `[]` |
| Entes.Ids | src/components/forms/CreateSupervisorForm.tsx:80 | the ids, one per ente, in order |
| Entes.FilterOutId | src/components/forms/CreateSupervisorForm.tsx:69 | keeps exactly the entries with another id |
| Entes.FilterOutSelected | src/components/supervisor/SelectEntesSheet.tsx:57-59 | keeps exactly the entries whose id is not selected |
| Entes.FilterOutIdHasId | src/components/forms/CreateSupervisorForm.tsx:69 | after removal the id is gone and every other id remains |
| Entes.FilterOutAbsent | src/components/forms/CreateSupervisorForm.tsx:69 | removing an absent id leaves the list unchanged |
| Entes.FilterOutIdAppend | src/components/forms/CreateSupervisorForm.tsx:69 | removal distributes over concatenation, so the order is kept |
| Entes.AddThenRemove | src/components/forms/CreateSupervisorForm.tsx:63-70 | appending an ente with a fresh id and then removing that id restores the list |
| SupervisorForm.Payload | src/components/forms/CreateSupervisorForm.tsx:78-81 | the payload's `entesIds` are the selection's ids and every other field is the values' |
| SupervisorForm.PayloadKeepsFields | src/components/forms/CreateSupervisorForm.tsx:78-81 | each non-id field of the payload equals the parsed value |
| SupervisorForm.ServiceErrorShown | src/components/forms/CreateSupervisorForm.tsx:92-96 | the failure toast shows the service's message |
| SupervisorForm.CreateSupervisorForm.constructor | src/components/forms/CreateSupervisorForm.tsx:44-60 | empty selection, not submitting, default values |
| SupervisorForm.CreateSupervisorForm.Edit | src/components/forms/CreateSupervisorForm.tsx:48-60 | editing the fields changes only the values |
| SupervisorForm.CreateSupervisorForm.HandleAddEnte | src/components/forms/CreateSupervisorForm.tsx:63-65 | appends at the end with no deduplication; nothing else changes |
| SupervisorForm.CreateSupervisorForm.HandleRemoveEnte | src/components/forms/CreateSupervisorForm.tsx:68-70 | every entry with the id goes and the rest keep their order; an absent id changes nothing |
| SupervisorForm.CreateSupervisorForm.SubmitBegin | src/components/forms/CreateSupervisorForm.tsx:73-83 | rejected values submit nothing. Otherwise the flag is raised and the payload carries the selection's ids |
| SupervisorForm.CreateSupervisorForm.SubmitEnd | src/components/forms/CreateSupervisorForm.tsx:83-99 | success empties the selection and resets the values; failure leaves both; the flag ends false either way |
| EntesSheet.SelectEntesSheet.constructor | src/components/supervisor/SelectEntesSheet.tsx:41-42 | nothing available, not loading |
| EntesSheet.SelectEntesSheet.FetchBegin | src/components/supervisor/SelectEntesSheet.tsx:52-53 | loading is set |
| EntesSheet.SelectEntesSheet.IsEnteSelected | src/components/supervisor/SelectEntesSheet.tsx:72-74 | an ente is selected exactly when its id is among the ids the payload will carry |
| EntesSheet.SelectEntesSheet.FetchEnd | src/components/supervisor/SelectEntesSheet.tsx:54-68 | `available` becomes the fetched entes not selected, in fetched order. A failure leaves it and raises the `Error al cargar Entes disponibles` toast with the message. Loading ends false |
| EntesSheet.SelectEntesSheet.HandleAdd | src/components/supervisor/SelectEntesSheet.tsx:77-81 | the form appends the ente and every entry with its id leaves `available`; the lists stay disjoint |
| EntesSheet.SelectEntesSheet.HandleRemove | src/components/supervisor/SelectEntesSheet.tsx:84-88 | the form drops the id and the ente returns at the end of `available`; the lists stay disjoint |
| EntesSheet.FilterOutSelectedDisjoint | src/components/supervisor/SelectEntesSheet.tsx:57-59 | a fetched list shares no id with the selection |
| EntesSheet.AddKeepsDisjoint | src/components/supervisor/SelectEntesSheet.tsx:77-81 | adding keeps `available` and `selected` disjoint by id |
| EntesSheet.RemoveKeepsDisjoint | src/components/supervisor/SelectEntesSheet.tsx:84-88 | removing keeps them disjoint |
| EntesSheet.AddThenRemoveRestores | src/components/supervisor/SelectEntesSheet.tsx:77-88 | add then remove restores the selection and the ids of `available`, with the ente at the end |
| LoginForm.EmailShapeIff | src/components/LoginForm.tsx:49 | the regex accepts exactly the strings with no white space, one `@`, a non-empty local part, and a domain with an inner `.` |
| LoginForm.Validate | src/components/LoginForm.tsx:41-55 | an empty field gives `Campos requeridos`. Otherwise a failing regex gives `Email inválido`. Otherwise the login proceeds |
| LoginForm.LoginFormState.constructor | src/components/LoginForm.tsx:34-35 | both fields start empty |
| LoginForm.LoginFormState.SetEmail | src/components/LoginForm.tsx:34 | only the email changes |
| LoginForm.LoginFormState.SetPassword | src/components/LoginForm.tsx:35 | only the password changes |
| LoginForm.LoginFormState.HandleSubmit | src/components/LoginForm.tsx:37-100 | a failed guard leaves the store untouched. A successful login goes to `/dashboard`. A failure shows the extracted message, with the form's own default |
| LoginForm.WrongRoleMessage | src/components/LoginForm.tsx:70-94 | a user of another role sees the store's permission message |
| LoginForm.EmailRejectsSpace | src/components/LoginForm.tsx:49 | an address with a space is rejected |
| LoginForm.EmailRejectsTwoAt | src/components/LoginForm.tsx:49 | an address with two `@` is rejected |
| LoginForm.EmailAccepts | src/components/LoginForm.tsx:49 | `a@b.c` is accepted |
| Header.GetInitialsAsWritten | src/components/layout/Header.tsx:46-53 | two non-empty leading words give their upper-cased first letters. An empty first word makes the result start with `UNDEFINED`, and an empty second word makes it end with `UNDEFINED` |
| Header.GetInitials | src/components/layout/Header.tsx:46-53 | the corrected `getInitials` (second finding). Two non-empty leading words give their upper-cased first letters, and otherwise the first two characters, so the result has two characters, or fewer for a shorter name |
| Header.AsWrittenAgrees | src/components/layout/Header.tsx:48-51 | the written and the corrected initials agree when the first two words are non-empty |
| Header.LeadingSpaceAsWritten | src/components/layout/Header.tsx:50 | as written, `" a"` gives `UNDEFINEDA`; corrected, `" A"` |
| Header.NoSpaceName | src/components/layout/Header.tsx:52 | a name without spaces gives its first two characters upper-cased |
| Header.SessionInitials | src/components/layout/Header.tsx:52 | for a verified session whose email has no space, the initials are the name's first two characters |
| Header.HandleLogout | src/components/layout/Header.tsx:40-43 | the store is signed out and the cookies cleared before the route `/login` is returned |

## Left out

- JWT decoding and signature checking. `jwtDecode` is the parameter `decode`, and, as in the code, no signature is checked.
- The cookie readers of src/lib/auth/session.ts. `getSessionCookie` and `deleteSessionCookie` go through `next/headers`, which is server I/O. The session helper of src/lib/auth/auth.ts is a one-line wrapper over them.
- The request cookie passed to the proxy. Next.js parses `request.cookies`, so the proxy takes the `access_token` value as a parameter.
- The proxy's `matcher` configuration (proxy.ts:69-76), which decides which paths reach the proxy at all.
- Session.VerifySession: time is the integer `Date.now()` in milliseconds, and `exp` and `iat` are integers. This makes `exp < Date.now() / 1000` exact as `exp * 1000 < nowMs`. Fractional or non-numeric claims are not modelled.
- HTTP. The following are all out:
  - axios;
  - the `apiClient` interceptors (a bearer header, and on 401 clearing storage and setting `window.location`);
  - `authService.login`, whose result is the `Outcome` parameter of `LoginEnd`;
  - `authService.logout`, a no-op promise.
- Http.Body: a response body is either an object or absent. A `data` key holding `null` would make the services throw a `TypeError` from inside their handlers; that case is not modelled.
- Http.MessageValue: a body message that is not a string carries the text `String()` gives it as data. That text is not computed from the value.
- `error instanceof Error` in the form and the sheet is read as "an error object with a string message".
- Cookies.UserCodec: `JSON.stringify`, `encodeURIComponent`, `decodeURIComponent` and `JSON.parse` are a pair of functions. The round trip is a hypothesis (`Cookies.Sound`), where needed. `JSON.parse` returning something other than a user is not modelled.
- Cookies.CookieJar.Assign: the browser jar is limited in seven ways:
  - it has a single path;
  - it has no clock, so a cookie expires only through a `Max-Age` of 0 or the 1970 date;
  - `Path`, `SameSite` and `Secure` have no further effect;
  - cookies written by other code are not modelled;
  - so are HttpOnly cookies;
  - text after a `;` inside an assigned value is dropped, not read as attributes (a token `t; HttpOnly` would make a browser refuse the whole write);
  - cookie names are not trimmed, since the source writes only its two constant names.

  Two cookies with the same name on different paths cannot arise in this jar. `Cookies.ReadDuplicated` states the reader's behaviour for them on a raw cookie string.
- `typeof window` and `typeof document` are one flag, `CookieJar.hasDocument`. Both are defined on the client and neither is defined on the server.
- `process.env.NODE_ENV === 'production'` is the parameter `secure`. The development-only warning of the layout guard and all `console` logging are side effects and are left out.
- Validation.Issues: string lengths are counted in Unicode scalar values, whereas zod counts UTF-16 code units. The two differ only above U+FFFF. zod's type errors for values that are not strings are not modelled.
- `.email()` and `.uuid()` are the predicates `isEmail` and `isUuid`.
- React and Next.js runtime behaviour is modelled as follows:
  - State setters take effect at once.
  - `useEffect` starting the fetch when the sheet opens is not modelled.
  - Stale closures are not modelled: `FetchEnd` filters against the selection current when the fetch completes.
  - Concurrent `login` calls are not modelled.
  - Toasts are returned values.
  - `router.push` and `redirect()` are returned routes.
- Header.GetInitials: this is the corrected function, not the source. Where the first or second word is empty, the source prints `UNDEFINED` (`Header.GetInitialsAsWritten`); this function falls back to the first two characters instead. In both, `toUpperCase` is modelled on ASCII letters only; other characters are left unchanged.
- The `ROLE_BASE_ROUTES` table (src/lib/constants/routes.ts:5-7) is never read by the code.
- The program itself says the dashboard is guarded: its page shows "Protegido por Proxy" (src/app/dashboard/page.tsx:100), and proxy.ts:18 labels the second case of the cascade "Validar rutas protegidas". Yet the code makes every path that starts with `/` public, so that case is never reached. The model follows the code in `Routes.IsPublicRoute` and `Proxy.ProxyAsWritten`. The intended behaviour is in `Routes.IsPublicRouteIntended` and `Proxy.Proxy`; see the first finding.

## Findings

| source | as written | input that shows it | evidently intended | confidence | as-written member | corrected member |
|---|---|---|---|---|---|---|
| src/lib/constants/routes.ts:60-64 | `PUBLIC_ROUTES` contains `'/'` and matching uses `startsWith`, so every path starting with `/` is public and the proxy lets it through | `/dashboard/usuarios` with no cookie | `/` is public only as itself, `/login` together with the paths below it | high, not executed | Routes.DashboardPublicAsWritten | Routes.DashboardNotPublicIntended |
| src/components/layout/Header.tsx:50 | an empty word among the first two (a leading or doubled space) is indexed as `''[0]`, which renders as `undefined` | the name `" a"` gives `UNDEFINEDA` | fall back to the first two characters when a word is empty | medium, not executed | Header.LeadingSpaceAsWritten | Header.GetInitials |
