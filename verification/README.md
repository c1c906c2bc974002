# Identity and authorization of hiresense, modelled in Dafny

This project models the identity and access-control core of the hiresense hiring platform:

- **Registration** (`POST /api/auth/register`). A fixed chain of guards, each with its own
  status: 400, 403, 400, 400, 409, 409. E-mail and username are normalized first. Then one atomic
  write creates the user and the profile of its role. The reply is 201 with a redacted user, or
  500 when a database lookup, the password hash or a write throws.
- **Sign-in**. The credentials provider's `authorize` looks the normalized identifier up by
  e-mail OR username and compares the password. It returns the five claims or throws. The `jwt`
  callback copies the claims into the token. The `session` callback passes the session through.
- **The route gate**. The middleware's `authorized` callback makes a pure, first-match-wins
  decision over the path and the token.
- **HR job creation** (`POST /api/auth/hr/jobs`). Guards answer 401, 403, 400 and 404. Then one
  job row is created, its skills mapped with the defaults `weight ?? 1` and `required ?? true`.

Modules: `Wrappers` (Option, Result, and `Js<T>` for a JSON field that is absent, `null` or
present), `Text` (trim, lower-case, prefix test), `Roles`, `Store` (the repository as a class
`AccountStore` with four tables), `Register`, `Auth`, `Proxy`, `Jobs`.

Design choices:

- Each table is a `seq` in insertion order, and a row's id is its position.
- `Store.Consistent` is the repository invariant:
  - ids are positions;
  - e-mail and username are each unique;
  - every HR or candidate user has exactly one profile of its own kind and none of the other;
  - every job points at an existing HR profile.
- bcrypt is not modelled. The registration handler receives the digest `hashed` as a parameter.
  `authorize` receives `bcrypt.compare` as a parameter `matches`.
- A failing repository write is a parameter `fault`. It exercises the rollback and the 500 reply.
  A throwing step before the transaction (either `findUnique`, or `bcrypt.hash`) is a second
  parameter `early`.

Two behaviours of the code that a reader might not expect, both kept in the model:

- A failed login throws "User not found" or "Incorrect password". The two messages let a caller
  tell an unknown identifier from a wrong password (`Auth.FailuresAreDistinguishable`).
- A comment says the username is only trimmed. The code also lower-cases it.

## Model

| member | source | states |
|---|---|---|
| `Wrappers.Js.Coalesce` | app/api/auth/hr/jobs/route.ts:62-63 | `??` falls back only for `undefined` and `null`; any other value is kept |
| `Text.Trim` | app/api/auth/register/route.ts:42 | the result neither starts nor ends with white space and is no longer than the input |
| `Text.TrimSplit` | app/api/auth/register/route.ts:42 | what `trim` removes on either side is white space only; the input is left part + result + right part |
| `Text.TrimUnique` | app/api/auth/register/route.ts:42 | `trim` of white space + trimmed middle + white space is that middle |
| `Text.ExampleLowered` | app/api/auth/register/route.ts:42 | `toLowerCase` turns "ANA@EXAMPLE.COM" into "ana@example.com": each capital becomes its small letter and other characters stay |
| `Text.Normalize` | app/api/auth/register/route.ts:42-45 | the normalized form has no upper-case letter and no surrounding white space |
| `Text.NormalizeIdempotent` | app/api/auth/register/route.ts:42-45 | normalizing a normalized string changes nothing |
| `Text.NormalizeIgnoresCase` | app/api/auth/register/route.ts:42 | inputs that differ only in letter case normalize alike |
| `Text.NormalizeIgnoresSurroundingSpace` | app/api/auth/register/route.ts:42 | inputs that differ only in surrounding white space normalize alike |
| `Text.NormalizedVariant` | lib/auth.ts:33 | every string that lower-cases to a normalized string, with white space around it, normalizes to that string ("ANA@Example.COM" with blanks around it gives "ana@example.com") |
| `Roles.ParseRegisterRole` | app/api/auth/register/route.ts:47-48 | a role string is accepted only as a registrable role whose name it is |
| `Roles.ParseRegisterRoleExact` | app/api/auth/register/route.ts:5-6 | exactly "HR" and "CANDIDATE" are accepted and read back as their roles; "ADMIN" is refused |
| `Store.ProfileOf` | app/api/auth/hr/jobs/route.ts:42-44 | the lookup by `userId` finds a profile of that user whenever one exists, and none otherwise |
| `Store.ExactlyOneProfile` | app/api/auth/register/route.ts:108-135 | in a consistent repository a user of role R has exactly one profile of kind R and none of the other kind |
| `Store.AccountAddedKeepsConsistency` | app/api/auth/register/route.ts:108-135 | adding a user with fresh e-mail and username, plus the profile of its role, keeps the repository consistent |
| `Store.AccountStore.CreateAccount` | app/api/auth/register/route.ts:108-135 | the transaction is all or nothing: it fails exactly on a unique-constraint clash or a failing write, leaving every table unchanged; on success it adds one user and exactly one profile of the matching kind, nothing else |
| `Store.AccountStore.CreateJob` | app/api/auth/hr/jobs/route.ts:53-70 | appends one job with the given fields and skills; the other tables are unchanged |
| `Register.EmailValid` | app/api/auth/register/route.ts:60-61 | an accepted address has no white space and exactly one `@`, which is not its first character |
| `Register.EmailValidMatchesPattern` | app/api/auth/register/route.ts:60 | the direct check accepts exactly the strings `^[^\s@]+@[^\s@]+\.[^\s@]+$` matches (both directions) |
| `Register.CheckFormat` | app/api/auth/register/route.ts:34-74 | the four request-only guards pass iff all five fields are present, the role is registrable, the normalized e-mail is valid and the password has 8 or more characters; the record carries the normalized e-mail and username and the raw full name and password; refusals are 400 or 403 |
| `Register.CheckTable` | app/api/auth/register/route.ts:76-105 | the lookups and the hash pass iff none of them throws and neither e-mail nor username is taken; a refusal is the e-mail 409, the username 409 or 500, and 500 only when a step throws |
| `Register.Screen` | app/api/auth/register/route.ts:34-105 | a request reaches the transaction iff no step throws, the format guards pass and neither normalized e-mail nor username is taken, carrying the format stage's record; refusals are 400, 403, 409 or 500, and 500 is the generic error of a throwing step |
| `Register.Validate` | app/api/auth/register/route.ts:34-102 | when no step throws, a refusal is 400, 403 or 409 |
| `Register.EarlyFaultIsInternalError` | app/api/auth/register/route.ts:76-163 | a throwing e-mail lookup gives 500 unless a format guard answered first; a throwing username lookup gives 500 unless a format guard or the e-mail 409 answered first; a throwing hash gives 500 unless any guard answered first |
| `Register.Redact` | app/api/auth/register/route.ts:138-145 | the reply carries id, username, full name, e-mail, role and creation time of the stored user |
| `Register.RedactionIgnoresPassword` | app/api/auth/register/route.ts:136-145 | the reply does not depend on the password digest |
| `Register.Post` | app/api/auth/register/route.ts:26-164 | a refused request returns its guard's reply and changes nothing; a throwing lookup or hash, or a failing write, returns 500 and changes nothing; otherwise 201 with the redacted new user, which is the one row added, with exactly one profile of its role |
| `Register.MissingFieldFirst` | app/api/auth/register/route.ts:34-39 | a missing or empty field gives 400 before any other check, whatever the users and whichever later step would throw |
| `Register.ForbiddenRoleBeforeFormatChecks` | app/api/auth/register/route.ts:47-57 | any role other than "HR" and "CANDIDATE", "ADMIN" included, gives 403 whatever the e-mail, password and users, and whichever later step would throw |
| `Register.InvalidEmailBeforePassword` | app/api/auth/register/route.ts:59-66 | a normalized e-mail that fails the pattern gives the e-mail 400 whatever the password and users, and whichever later step would throw |
| `Register.ShortPasswordBeforeLookups` | app/api/auth/register/route.ts:68-74 | a password shorter than 8 gives the password 400 whatever the users, and whichever later step would throw |
| `Register.NoAdminByRegistration` | app/api/auth/register/route.ts:47-57 | no accepted registration has the administrative role |
| `Register.EmailConflictBeforeUsername` | app/api/auth/register/route.ts:77-102 | a taken e-mail gives the e-mail 409, even when the username is taken too |
| `Register.UsernameConflictWhenEmailFree` | app/api/auth/register/route.ts:92-102 | a free e-mail with a taken username gives the username 409 |
| `Register.CaseAndSpaceVariantConflicts` | app/api/auth/register/route.ts:41-90 | a request e-mail that lower-cases to a stored e-mail, with blanks around it ("ANA@EXAMPLE.COM" against a stored "ana@example.com"), gives the e-mail 409 |
| `Register.BlankUsernameStoredEmpty` | app/api/auth/register/route.ts:34-45 | a username of blanks passes the required-field test, and is stored as the empty string |
| `Register.ExampleEmailValid` | app/api/auth/register/route.ts:60-61 | "ana@example.com" passes the pattern |
| `Auth.FindFirst` | lib/auth.ts:35-47 | the lookup returns the first user, in table order, whose e-mail or username equals the identifier, or none when no user does |
| `Auth.ClaimsOf` | lib/auth.ts:58-64 | the claims are id, e-mail, username, full name and role copied from the stored row |
| `Auth.Authorize` | lib/auth.ts:27-72 | `null` iff identifier or password is missing; the claims of the found user iff no call throws, one is found and the password matches its digest; otherwise the message is that of a throwing lookup, else "User not found" when no user is found, else that of a throwing comparison, else "Incorrect password" |
| `Auth.CallErrorsPassThrough` | lib/auth.ts:35-71 | a throwing lookup reaches the caller with its own message whatever the password; a throwing comparison does so only when a user was found, and an unknown identifier still gives "User not found" |
| `Auth.MissingCredentialsIgnoreStore` | lib/auth.ts:29-31 | with a missing identifier or password the answer is `null` whatever the users, the comparison and whichever call would throw |
| `Auth.FailuresAreDistinguishable` | lib/auth.ts:48-71 | when no call throws, an unknown identifier throws "User not found" and a wrong password "Incorrect password"; the two are different |
| `Auth.LoginByEmail` | lib/auth.ts:33-64 | any identifier that lower-cases to a stored e-mail, with blanks around it ("ANA@EXAMPLE.COM" for "ana@example.com"), signs in as that user when no call throws and the password matches, unless an earlier user took the e-mail as username |
| `Auth.UsernameShadowedByEarlierEmail` | lib/auth.ts:35-38 | a user whose username is an earlier user's e-mail never signs in by that username, whichever call throws |
| `Auth.StampedToken` | lib/auth.ts:78-82 | the claims written into the token read back as the same claims |
| `Auth.StampReadRoundTrip` | lib/auth.ts:78-82 | a token holding all five claims is the stamp of the claims it holds |
| `Auth.JwtCallback` | lib/auth.ts:76-86 | with a user, the token holds exactly that user's five claims; without one the token is unchanged; the same token object is returned |
| `Auth.DefaultSession` | lib/auth.ts:101-104 | a session expires `30*24*60*60` = 2,592,000 seconds after it is issued and carries no role |
| `Auth.SessionCallback` | lib/auth.ts:88-95 | the callback returns the session it was given, unchanged |
| `Auth.SessionWithClaims` | lib/auth.ts:88-95 | corrected callback: `session.user` gets the token's id, e-mail, username, full name and role; the rest is kept |
| `Proxy.Authorized` | porxy.ts:11-42 | a public path is allowed with or without a token; a non-public path without a token is denied |
| `Proxy.FirstMatchIsFirst` | porxy.ts:15-39 | the scope found is that of the first rule whose pattern matches the path, and there is one iff some rule matches |
| `Proxy.GateFollowsRouteTable` | porxy.ts:14-41 | on every path and token the callback decides as the ordered route table read first match wins, with the unmatched paths open to any token |
| `Proxy.ScopedPrefixesExclusive` | porxy.ts:27-39 | a path starts with at most one of "/hr", "/candidate", "/admin" |
| `Proxy.ScopedPathsAreNotPublic` | porxy.ts:15-39 | no path under a role scope is public |
| `Proxy.ScopedPathNeedsExactRole` | porxy.ts:27-39 | a path under "/hr", "/candidate" or "/admin" is allowed iff a token of exactly that role is present |
| `Proxy.RoleSeparation` | porxy.ts:27-39 | no token is allowed on both an HR path and a candidate path; a candidate token is allowed on neither HR nor admin paths |
| `Proxy.PublicBeforeRoles` | porxy.ts:15-24 | "/api/auth/hr/jobs", "/registerX" and "/loginfoo" pass without a token; "/hr/jobs" does not |
| `Proxy.DefaultAllow` | porxy.ts:41 | a token-bearing request to a path under none of the listed prefixes is allowed for every token |
| `Proxy.SignedInRoleDecides` | porxy.ts:27-29 | the token stamped at sign-in opens HR paths iff the account is an HR account |
| `Jobs.MapSkills` | app/api/auth/hr/jobs/route.ts:60-64 | one job skill per requested skill, same order; weight is the given one or 1, required the given one or true; `0` and `false` are kept |
| `Jobs.MapSkillsKeepsOrder` | app/api/auth/hr/jobs/route.ts:60-64 | the mapping of a concatenation is the concatenation of the mappings |
| `Jobs.Guard` | app/api/auth/hr/jobs/route.ts:17-51 | a request is accepted iff there is a session, its role is HR, the fields are present, it has a user id and that user has an HR profile; the accepted profile is that user's |
| `Jobs.Post` | app/api/auth/hr/jobs/route.ts:17-71 | a refused request returns its guard's reply and creates nothing; otherwise exactly one job is added, with `hrId` the found profile's id and the mapped skills, and the handler returns no response |
| `Jobs.NoSessionFirst` | app/api/auth/hr/jobs/route.ts:20-22 | without a session the reply is 401 whatever the body |
| `Jobs.NonHrForbiddenBeforeBody` | app/api/auth/hr/jobs/route.ts:23-27 | a non-HR session gets 403 whatever the body |
| `Jobs.MissingFieldsBeforeLookup` | app/api/auth/hr/jobs/route.ts:31-39 | an HR session with a falsy title or description, an undefined `minExperience` or a missing skill list gets 400 whatever the profiles |
| `Jobs.MissingUserIdThrows` | app/api/auth/hr/jobs/route.ts:41-44 | a complete request from an HR session without a user id makes the profile query throw |
| `Jobs.NoProfileNotFound` | app/api/auth/hr/jobs/route.ts:41-51 | a complete request from an HR session whose user has no HR profile gets 404 |
| `Jobs.PresenceTests` | app/api/auth/hr/jobs/route.ts:31-39 | an undefined `minExperience` or a null `skills` gives 400; `minExperience` 0 or `null` and an empty skill list do not |
| `Jobs.JobBelongsToSessionUser` | app/api/auth/hr/jobs/route.ts:42-58 | the job is attached to the HR profile of the signed-in user, who is an HR account |
| `Jobs.AsWrittenSessionAlwaysForbidden` | lib/auth.ts:88-95 | with the callback as written, every signed-in request to the job endpoint gets 403 |
| `Jobs.IntendedSessionAdmitsHr` | lib/auth.ts:88-95 | with the corrected callback, a signed-in HR user passes the 401 and 403 checks, and a complete request is accepted for that user's own profile |

## Findings

| source | as written | input that shows it | evidently intended | confidence | as-written member | corrected member |
|---|---|---|---|---|---|---|
| lib/auth.ts:88-95 | the `session` callback assigns each token field to itself and returns NextAuth's default session, which holds only name, e-mail and image; `session.user.role` is never set, so the test at app/api/auth/hr/jobs/route.ts:23 always fails | any HR user, signed in, posting a complete job | copy the token's id, username, full name and role into `session.user` | not executed; medium, because it rests on the default session shape of NextAuth's JWT strategy, which `Auth.DefaultSession` states, and on the job handler obtaining its session from next-auth's own `getServerSession` (as written, app/api/auth/hr/jobs/route.ts:3 imports it from lib/auth.ts, which does not export it, so the handler fails before it reaches line 20) | `Jobs.AsWrittenSessionAlwaysForbidden` | `Jobs.IntendedSessionAdmitsHr` |

## Left out

- bcrypt hashing and comparison are foreign code. The digest and the comparison are parameters.
- JSON body parsing, and registration field values that are not strings, are left out. Body
  fields are strings (or booleans and integers for skills) that may be absent or `null`. In the
  code such values behave field by field: a non-string e-mail or username makes `trim` throw
  (500); a non-string role fails the `includes` test (403); a password without a `length`, such
  as a number, skips the length test (`undefined < 8` is false) and then fails in `bcrypt.hash`
  (500); a non-string full name reaches the create call, whose handling of it is not modelled.
- Unicode is left out. `trim`, `toLowerCase` and `\s` cover ASCII only. The model's `|password|`
  counts characters, where JavaScript's `password.length` counts UTF-16 code units.
- `findFirst` without `orderBy` has no defined order in the database. The model returns the first
  match in insertion order.
- Store.AccountStore.CreateAccount: concurrency is not modelled. `Register.Post` calls it on the
  table its checks have just read, so its own unique-constraint branch cannot fire there. A
  registration racing another past the uniqueness checks appears only as the fault
  `UserWriteFails`, which gives 500.
- Ids are table positions, not the database-generated string ids. `createdAt` is a parameter (the database clock).
- JWT signing, verification and expiry enforcement are left out. So are the `withAuth` redirect
  and the middleware's matcher (porxy.ts:47-58). The gate receives an already-verified token or
  none.
- `console.warn` and `console.error` logging are left out.
- `getServerSession` is left out. It is imported from lib/auth.ts, which does not define it. The
  job handler receives the session as a parameter.
- Jobs.Post: the database schema is not part of this model. It does not model whether the
  database refuses a `null` `minExperience` or an undefined `skillId`. It does not model a failure
  of `prisma.job.create`, nor a failing `prisma.hRProfile.findUnique` with a user id
  (app/api/auth/hr/jobs/route.ts:42-44), which in the code throws uncaught instead of answering
  404 or creating a job. A lookup without a session user id is modelled as an uncaught exception.
- The `"Login failed"` fallback of `authorize`'s `catch` is left out. It applies only to thrown
  values that are not `Error`s; the failing calls modelled by `Auth.SignInFault` throw `Error`s.
- prisma/seed.ts is not part of this model. Neither are lib/prisma.ts and types/next-auth.d.ts.
  The last one only informs the claim fields.
