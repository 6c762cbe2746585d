# MultiNotes backend, modelled in Dafny

MultiNotes is a multi-tenant note-taking web application. A visitor signs up,
which creates a *tenant* (an isolated account) whose first user is its admin.
Users sign in, list and create notes in their tenant, and an admin invites
members. A tenant on the free plan may hold at most three notes. Authentication is
an encrypted session cookie holding a snapshot of the user. A route middleware
gates pages and API routes by whether that cookie holds a user.

This project models the backend's core, as sequential abstract state:

- `schema.dfy`: the tenants, users and notes tables, with their unique
  indexes, enum defaults, varchar(255) limits, foreign keys and cascading
  deletes. A table is a map from its auto-increment id to the row. An insert
  is refused exactly when MySQL would refuse it, up to the differences listed
  under "Left out" (exact comparison, no `text` limit, unbounded ids).
- `types.dfy`: the session user and the `{success, data}` /
  `{success: false, error?, form?}` response envelope.
- `zod.dfy`: the part of zod the handlers rely on. This is `safeParse` of an
  object of string members with email, minimum-length and maximum-length
  checks, plus the shape of `z.flattenError`. A type error names the type it
  received, as zod's `invalid_type` message does.
- `utils.dfy`: `zodErrorToFormError`, with the `reduce` written as a fold over
  the field entries.
- `auth_service.dfy`: `withApiAuth`, written as a gate. Without a session
  user it answers 401. With one, it hands exactly that user to the inner handler.
- `middleware.dfy`: the route gate, a function of the path and of the session.
- `backend.dfy`: the `Server` object holding the database and the client's
  session slot. It also holds the invariants that the handlers keep: the
  database constraints, "every note is in its author's tenant", "no free tenant
  has more than three notes" and "the session agrees with the user row it names".
- `signup.dfy`, `login.dfy`, `logout.dfy`, `me.dfy`, `notes.dfy`, `invite.dfy`:
  one module per API route, plus `createSlug` in `signup.dfy`. Each
  state-changing handler is a module-level method that takes the `Server` as
  `app` and the request, and may modify `app`. Its postcondition gives the
  status, the body, the new tables, auto-increment counters and session for
  every branch. The me handler changes nothing and is a function.

Three behaviours of the code are modelled as they are written:

- Signup creates the tenant and the user with two separate inserts, not in a
  transaction (a comment in the handler says one is wanted). If the user insert is refused (for example an email longer
  than 255 characters), the new tenant remains and the answer is 500.
- Login stores a session user without the tenant slug and the plan, although
  the declared session type requires them. Those two fields are optional here.
- The note quota reads the plan from the tenant row, not from the session.

## Model

| member | source | states |
|---|---|---|
| `Schema.InsertTenant` | src/db/schema.ts:12-17 | a tenant insert succeeds exactly when the slug is unused and name and slug fit varchar(255); the new row gets a fresh id and the plan defaults to free; valid tables stay valid |
| `Schema.InsertUser` | src/db/schema.ts:19-27 | a user insert succeeds exactly when the email is unused, the tenant exists and the columns fit; the role defaults to member; valid tables stay valid |
| `Schema.InsertNote` | src/db/schema.ts:29-38 | a note insert succeeds exactly when its tenant and author exist and the title fits; the note has a title, optional content and both references; valid tables stay valid |
| `Schema.DeleteUser` | src/db/schema.ts:36-38 | deleting a user removes exactly that user and every note it wrote; valid tables stay valid |
| `Schema.DeleteTenant` | src/db/schema.ts:24-38 | deleting a tenant removes the tenant, every user of it and every note of it or of a removed author; valid tables stay valid |
| `Schema.DeleteTenantLeavesNoTrace` | src/db/schema.ts:24-35 | after a tenant is deleted, no user or note refers to it and its note count is zero |
| `Schema.EmailTaken` | src/pages/api/auth/signup.ts:39-41 | the email lookup finds a row; under the unique index on email that row is the only one with this email |
| `Schema.SlugTaken` | src/pages/api/auth/signup.ts:50-52 | the slug lookup finds a row; under the unique index on slug that row is the only one with this slug |
| `Schema.NoteCount` | src/pages/api/notes/index.ts:41-44 | a tenant's note count is zero exactly when no note belongs to it |
| `Schema.TenantNotes` | src/pages/api/notes/index.ts:62-64 | the tenant filter keeps exactly the notes whose tenantId is the given tenant, unchanged |
| `Schema.TenantNotesPartition` | src/pages/api/notes/index.ts:62-64 | two tenants' note lists never share a note, and every note is in its own tenant's list |
| `Schema.AddNoteCount` | src/pages/api/notes/index.ts:41-58 | adding a note raises its own tenant's count by one and leaves every other tenant's count alone |
| `Schema.EmptyValid` | src/db/schema.ts:12-41 | empty tables satisfy every constraint |
| `Backend.Server.constructor` | src/db/schema.ts:12-41 | the initial state has empty tables and no session user, and satisfies all invariants |
| `Backend.InsertTenantKeepsConsistent` | src/pages/api/auth/signup.ts:63-66 | inserting a tenant keeps every invariant, including the free-plan limit |
| `Backend.InsertUserKeepsConsistent` | src/pages/api/tenants/invite.ts:50-55 | inserting a user keeps every invariant, including the soundness of the current session |
| `Backend.InsertNoteKeepsConsistent` | src/pages/api/notes/index.ts:40-58 | a note by the session user in the session user's tenant, let through by the quota check, keeps every invariant |
| `Backend.SignInSound` | src/pages/api/auth/login.ts:54-59 | a session copied from an existing user row agrees with the database |
| `Backend.DeleteTenantKeepsConsistent` | src/db/schema.ts:24-38 | a cascading tenant delete keeps every invariant |
| `Backend.DeleteUserKeepsConsistent` | src/db/schema.ts:36-38 | a cascading user delete keeps every invariant |
| `Zod.FieldErrorsLists` | src/lib/utils.ts:13 | with distinct field names, the flattened field errors list each field with exactly its own messages, and leave out a field with none |
| `Zod.FieldErrorsDistinct` | src/lib/utils.ts:13 | leaving out the fields without messages keeps the field names distinct |
| `Utils.CollectFields` | src/lib/utils.ts:18-26 | the fold never drops a key it started with |
| `Utils.CollectFieldsKeys` | src/lib/utils.ts:17-26 | the fold's keys are those it started with plus exactly the field keys with at least one message |
| `Utils.CollectFieldsValues` | src/lib/utils.ts:18-23 | with distinct keys, each field with messages maps to its messages joined with ", ", and other keys keep their value |
| `Utils.ZodErrorToFormError` | src/lib/utils.ts:10-29 | `form` is present exactly when there are form messages, and is then their ", "-join. `fields` is present exactly when the field errors are. Its keys are exactly the fields with a non-empty message list, and each value is that field's messages joined |
| `AuthService.WithApiAuth` | src/lib/auth_service.ts:41-52 | no session user gives 401 "Unauthorized" and the inner handler does not run; a session user lets the inner handler run with exactly that user; nothing changes |
| `AuthService.GateIgnoresUserFields` | src/lib/auth_service.ts:44-50 | any session user, whatever its role or plan, passes the gate as itself |
| `Middleware.Middleware` | src/middleware.ts:4-44 | the gate answers with a response exactly when there is no session user and the path starts with "/api", and that response is always 401 "Unauthorized"; it redirects a signed-in client only to "/notes" and a signed-out one only to "/auth/signin" |
| `Middleware.AuthPathIsNotApi` | src/middleware.ts:9-33 | no path that starts with "/auth" also starts with "/api" |
| `Middleware.SignedInAuthPageRedirects` | src/middleware.ts:9-23 | a signed-in request for a path starting with "/auth" is redirected to "/notes" |
| `Middleware.SignedOutAuthPagePasses` | src/middleware.ts:11-28 | a signed-out request for a path starting with "/auth" passes through |
| `Middleware.SignedOutElsewhere` | src/middleware.ts:31-40 | a signed-out request for another path gets 401 "Unauthorized" under "/api" and a redirect to "/auth/signin" otherwise |
| `Middleware.SignedInElsewherePasses` | src/middleware.ts:42-43 | a signed-in request for any path outside "/auth" passes through |
| `Middleware.NeverForbidden` | src/middleware.ts:14-19 | the 403 "Already authenticated" response is never produced |
| `Middleware.OnlyPresenceMatters` | src/middleware.ts:6-43 | the decision depends on the session only through whether it holds a user |
| `Middleware.SignInApiBlockedWhenSignedOut` | src/middleware.ts:9 | a signed-out request to "/api/auth/login", "/api/auth/signup" or "/api/auth/logout" is answered 401 |
| `Middleware.MiddlewareIntended` | src/middleware.ts:9-28 | with the auth API counted as an auth page: 403 exactly for a signed-in request to "/api/auth/login" or "/api/auth/signup", and 401 exactly for a signed-out request under "/api" outside "/api/auth" |
| `Middleware.IntendedGateAdmitsSignIn` | src/middleware.ts:9-28 | with the auth API counted as an auth page: signed-out sign-in and sign-up pass, signed-in ones get 403, the rest of the auth API passes, and all other paths are gated as before |
| `Signup.ToLower` | src/pages/api/auth/signup.ts:18 | lower-casing keeps the length, leaves no capital letter, and changes no other character |
| `Signup.ReplaceSpaceRuns` | src/pages/api/auth/signup.ts:18 | after each run of whitespace is replaced by "-", no whitespace is left |
| `Signup.ReplaceSpaceRunsSplit` | src/pages/api/auth/signup.ts:18 | a character that is not whitespace is kept in place, and the runs on either side of it are replaced independently |
| `Signup.ReplaceSpaceRunOfSpaces` | src/pages/api/auth/signup.ts:18 | a non-empty run made only of whitespace becomes exactly one "-" |
| `Signup.CreateSlug` | src/pages/api/auth/signup.ts:17-19 | a slug consists of characters in [a-z0-9-] only |
| `Signup.KeepSlugChars` | src/pages/api/auth/signup.ts:18 | the final filter leaves only [a-z0-9-], never lengthens, and gives "" for a string with no character of [a-z0-9-] |
| `Signup.KeepSlugCharsAppend` | src/pages/api/auth/signup.ts:18 | the filter works character by character: filtering a concatenation is the concatenation of the filtered parts, so with `KeepSlugCharsOfSlug` every [a-z0-9-] character survives in order and every other is dropped |
| `Signup.KeepSlugCharsOfSlug` | src/pages/api/auth/signup.ts:18 | the filter keeps a string over [a-z0-9-] whole |
| `Signup.CreateSlugIdempotent` | src/pages/api/auth/signup.ts:17-19 | the slug of a slug is itself |
| `Signup.CreateSlugNotLonger` | src/pages/api/auth/signup.ts:18 | a slug is never longer than the name |
| `Signup.CreateSlugExample` | src/pages/api/auth/signup.ts:18 | "Acme Co" becomes "acme-co" |
| `Signup.ParseSignup` | src/pages/api/auth/signup.ts:11-15 | the body is accepted exactly when email is a valid email, password has at least 8 characters and tenantName at least 3. A body that is not an object fails with the type message. A rejected object lists each failing field with exactly its own messages, no passing field and no other key, each key once |
| `Signup.Handler` | src/pages/api/auth/signup.ts:21-89 | non-POST gets 405; a bad body gets 400 with form errors; an existing email gets 409 before the slug is checked; an existing slug gets 409. Success inserts one free tenant and one admin user of it, advances both id counters by one, sets the session to that user with slug and plan "free", and answers 201. Every non-success leaves tables and session unchanged, except the 500 after the tenant insert. All invariants, including email and slug uniqueness, are kept |
| `Login.ParseLogin` | src/pages/api/auth/login.ts:11-14 | the body is accepted exactly when email is a valid email and the password has 3 to 100 characters; a rejected object lists each failing field with exactly its own messages, no passing field and no other key |
| `Login.Handler` | src/pages/api/auth/login.ts:16-64 | non-POST gets 405; a bad body gets 400; an unknown email and a wrong password both get 401 "Invalid credentials". Success sets the session to the row's id, email, role and tenant, without slug or plan, and answers 200. No table changes |
| `Logout.Handler` | src/pages/api/auth/logout.ts:5-17 | non-POST gets 405 with the session untouched; any POST, signed in or not, clears the session user and answers 200 "Logged out", so repeating it gives the same result. Behind the gate as written, a signed-out POST never reaches this handler (see `Middleware.SignInApiBlockedWhenSignedOut`) |
| `Me.Handler` | src/pages/api/auth/me.ts:5-15 | without a session user 401 from the gate; with one 200 with exactly that user, for every HTTP method, changing nothing |
| `Notes.ParseCreateNote` | src/pages/api/notes/index.ts:10-13 | the body is accepted exactly when title is a non-empty string and content is a string or absent; a rejected object lists each failing field with exactly its own messages, no passing field and no other key |
| `Notes.List` | src/pages/api/notes/index.ts:61-66 | GET answers 200 with exactly the notes of the caller's tenant |
| `Notes.QuotaCheck` | src/pages/api/notes/index.ts:40-51 | creation is refused with 403 "Free plan limit reached" exactly when the tenant is free and already has 3 or more notes; a pro tenant is never refused |
| `Notes.CreateStaysWithinCap` | src/pages/api/notes/index.ts:40-58 | a note let through by the quota check adds one to a free tenant's count and leaves it at 3 or fewer |
| `Notes.Handler` | src/pages/api/notes/index.ts:15-73 | no session user gets 401. POST: a bad body gets 400; a missing tenant row gets 404; a full free tenant gets 403; a refused insert (a title over 255 characters, or an author row that is gone) gets 500 and inserts nothing; otherwise exactly one note is inserted with the session user's tenant and id and the note id counter advances by one, answering 201. GET answers the tenant's notes. Any other method gets 405 with Allow GET, POST. A free tenant with at most 3 notes still has at most 3 afterwards |
| `Invite.ParseInvite` | src/pages/api/tenants/invite.ts:11-13 | the body is accepted exactly when email is a valid email; a rejected object's field errors are exactly the email field with its messages |
| `Invite.Handler` | src/pages/api/tenants/invite.ts:15-60 | no session user gets 401; non-POST gets 405; a non-admin gets 403 "Forbidden" before the body is read; a bad body gets 400; a used email gets 409. Success inserts one member user of the inviter's tenant, advances the user id counter by one and answers 201. Only an admin ever adds a user; tenants, notes and session never change |

## Left out

- React pages and components, the HTTP client in `src/lib/api.ts`, the seed script and `cn`: presentation and client code.
- The note read/update/delete-by-id and the tenant upgrade routes (`src/pages/api/notes/[id].ts`, `src/pages/api/tenants/[slug]/upgrade.ts`) are not part of this model.
- argon2: the hash is a parameter (`hashed`) of signup and invite. Verification is a function parameter of login, with no relation assumed between the two.
- zod: the email format and the default wording of zod's messages come from a `Validator`. A body is either not an object, or an object whose members are strings, absent, or something else; a value that is not a string carries the name of its type, so that the type message can name what was received. Only these checks are modelled: the type, min, max and email checks of these four schemas.
- iron-session: cookie encryption, cookie options and `save()` are not modelled. The model has one session slot, for the one client making the calls.
- Next.js: the middleware's `matcher` globs are not modelled; the gate is stated for every path. Redirects are the target path only (no status code or absolute URL). Headers other than `Allow` are left out. An error thrown by the database becomes a 500 text response.
- MySQL: the server is assumed to run in strict SQL mode, so that an over-long varchar value is refused rather than cut down to size. Comparisons are exact, not collation-based (the default collation compares emails and slugs case-insensitively). The `text` limit of notes.content is not enforced. Ids are unbounded. A refused insert does not consume an auto-increment value. The order of the rows in the GET answer is not modelled (the rows are a map).
- Timestamps `createdAt`/`updatedAt`: they depend on the clock.
- Concurrency: calls are sequential, so the unguarded quota check-then-insert and the two-step signup are atomic in the model.
- Lengths are counted in Dafny characters (Unicode scalar values), not in JavaScript's UTF-16 code units.
- An absent HTTP method is not distinguished from other non-matching method strings.
- Signup.CreateSlug: `toLowerCase` is modelled on ASCII letters only. A non-ASCII letter whose lower case lies in a-z (the Kelvin sign, a dotted capital I) is dropped by the model but kept by the code. `CreateSlugNotLonger` therefore matches the code only for ASCII names.

## Findings

| source | as written | input that shows it | evidently intended | confidence | as-written member | corrected member |
|---|---|---|---|---|---|---|
| src/middleware.ts:9 | an "auth page" is a path starting with "/auth", yet the matcher also sends "/api/auth/..." through the gate and the 403 branch tests "/api/auth/login" and "/api/auth/signup" | a signed-out POST to "/api/auth/login" (or "/api/auth/signup") is answered 401 "Unauthorized", so no client can ever sign in or sign up; a signed-out POST to "/api/auth/logout" gets the same 401 | paths starting with "/api/auth" count as auth pages: signed-out sign-in and sign-up pass, signed-in ones get 403 | high; not executed | `Middleware.SignInApiBlockedWhenSignedOut` | `Middleware.IntendedGateAdmitsSignIn` |
