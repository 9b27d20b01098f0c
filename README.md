# Admin sessions and submission records of the medical guild site

This project is a Dafny model of the server-side core of a small Next.js site run by a
Catholic medical guild. The site has four parts:

- **Session authentication** (`lib/auth.ts`). Admin passwords are stored as bcrypt hashes
  with cost 12. A login issues an HS256 JSON Web Token that carries the admin's id, email
  and name and lives 24 hours. The token travels in the `admin-token` cookie.
  `getUserFromRequest` recovers the identity. It reads the framework's parsed cookies
  first and falls back to splitting the raw `Cookie` header.
- **Admin endpoints**: login, logout and change-password. There are also two protected
  collections, membership applications and feedback messages, which an admin can list
  (newest first), move to another status, or delete.
- **Public submission endpoints**. The membership form and the feedback form each create
  one record in the relational store; both check required fields and the email pattern.
  An older application form appends to a JSON file, and its companion endpoint lists that
  file newest first.
- **Admin dashboard logic** (`pages/admin/dashboard.tsx`). This covers the status filter
  and its counters, status badges, message previews, the status actions offered for each
  record, and the change-password form.

Each HTTP handler is modelled twice:

- a **pure outcome function or predicate** that gives the reply (status code, headers and
  JSON body as a datatype) and the new store contents, for given inputs;
- an **imperative method** over a `ServerResponse` object and a store object. Its
  `ensures` ties what it sends and leaves behind to that outcome.

The stores are classes. Their fields are the record map and an `online` flag: when the
store is unreachable, every call throws and the handler's catch-all answers 500.

The foreign libraries are datatypes of functions together with a soundness predicate:
bcrypt is `Auth.Hasher` and jose is `Auth.TokenCodec`. A token therefore opens exactly to
what was signed, and nothing else opens. Values supplied by the environment are
parameters: the clock, the bcrypt salt, `Math.random`, the identifiers the database
generates, and the request's address headers.

Two behaviours of the handlers are worth stating plainly:

- Logout answers 405 to anything but `POST`, and it clears the cookie only on `POST`.
- A failed login does not always get "Invalid credentials". A missing field gives 400 and a
  store failure gives 500.

Modules: `Wrappers`, `Text` (the JavaScript string built-ins used), `Http`, `Auth`,
`AdminSession`, `Sorting`, `RecordStore`, `AdminRecords`, `Email`, `Submissions`,
`FileApplications`, `Dashboard`.

## Model

| member | source | states |
|---|---|---|
| Auth.HashPassword | lib/auth.ts:9-11 | the hash (from a caller-supplied salt) is one the same password verifies against, for any sound hasher |
| Auth.CreateToken | lib/auth.ts:19-25 | the token opens to an HS256 header with the payload's id, email and name, `iat` = now and `exp` = now + 86400 |
| Auth.VerifyToken | lib/auth.ts:28-35 | yields claims exactly when the token opens under the secret and has not expired; those claims are the payload; otherwise null, never an error |
| Auth.CreatedTokenVerifies | lib/auth.ts:19-35 | a token just created verifies to its payload until 24 hours after issue, and not after |
| Auth.VerifiedTokenWasSigned | lib/auth.ts:28-35 | any token that verifies is the signature of the claims it yields |
| Auth.CookieEntry | lib/auth.ts:61-64 | `[key, ...v] = c.split('=')` rejoined: the key holds no `=`, and key `=` value gives back the entry; an entry without `=` has an empty value |
| Auth.FromEntries | lib/auth.ts:60-65 | `Object.fromEntries` holds a key exactly when some entry has it |
| Auth.LastEntryWins | lib/auth.ts:60-65 | for a repeated key, the value of the last entry is the one kept |
| Auth.HeaderEntriesRejoin | lib/auth.ts:60-64 | parsing the raw header loses nothing: when every `"; "` part holds an `=`, the entries written back as `key=value` and joined with `"; "` give the header back |
| Auth.GetUserFromRequest | lib/auth.ts:38-79 | a truthy parsed `admin-token` cookie is verified and decides; otherwise a falsy header gives null; otherwise the `admin-token` value of the parsed header entries is verified when present and non-empty, and null results when it is not; so any identity is the verification of a non-empty token |
| Auth.ParsedCookieTakesPrecedence | lib/auth.ts:44-48 | a truthy parsed `admin-token` cookie decides the result, whatever the raw header says |
| Auth.NoCookieNoUser | lib/auth.ts:51-58 | with no parsed cookie and no truthy header there is no user |
| Auth.LastHeaderEntryDecides | lib/auth.ts:60-74 | without a parsed cookie, the last `admin-token` entry of the header is verified (or yields no user when its value is empty) |
| Auth.MissingHeaderEntryNoUser | lib/auth.ts:67-71 | a header without an `admin-token` entry gives no user |
| Auth.HeaderValueRecovered | lib/auth.ts:60-74 | a header `admin-token=<value>` whose value contains no `"; "` yields exactly the value's verification; `=` inside the value survives |
| Text.JoinSplit | lib/auth.ts:62-63 | joining the parts of `split(sep)` with `sep` gives back the string |
| Text.SplitOnChar | lib/auth.ts:62 | the first piece of `split(c)` never holds `c`, and there is a single piece exactly when `c` does not occur |
| Text.Substring | pages/api/apply.js:97 | `substring` clamps both ends to the length and copies the characters in between |
| Text.Remove | pages/api/apply.js:96 | `replace(/-/g, '')` leaves no dash and never lengthens the text |
| Text.RemoveAppend | pages/api/apply.js:96 | removing dashes distributes over concatenation |
| Text.UpperAscii | pages/api/apply.js:97 | `toUpperCase` keeps the length and maps exactly the lower-case letters to upper case |
| Http.ServerResponse.Send | pages/api/admin/login.ts:75-83 | `res.status(code).json(body)` records the status and body and keeps the headers set so far |
| Http.ServerResponse.SetHeader | pages/api/admin/login.ts:71 | `res.setHeader` replaces one header and nothing else |
| AdminSession.AdminWithEmail | pages/api/admin/login.ts:30-32 | `findUnique({where: {email}})` finds an admin exactly when one has that email, and returns that stored row |
| AdminSession.AdminTable.FindByEmail | pages/api/admin/login.ts:30-32 | one query; fails exactly when the store is offline; otherwise returns the admin with that email |
| AdminSession.AdminTable.FindById | pages/api/admin/change-password.ts:42-44 | one query; fails exactly when offline; otherwise returns the row stored under that id, if any |
| AdminSession.AdminTable.UpdatePassword | pages/api/admin/change-password.ts:66-69 | one query; fails when offline or the id is gone; otherwise only that admin's hash changes |
| AdminSession.Login | pages/api/admin/login.ts:6-92 | sends exactly the login outcome: 405, 400, 500, 401 "Invalid credentials", or 200 with the `Set-Cookie` header and the admin's identity; never changes the store; queries it only after the field check |
| AdminSession.LoginRejectsOtherMethods | pages/api/admin/login.ts:7-12 | a non-POST login gets 405 and queries nothing |
| AdminSession.LoginRequiresBothFields | pages/api/admin/login.ts:20-26 | a missing or empty email or password gets 400 "Email and password are required" before any query |
| AdminSession.LoginFailureIsUniform | pages/api/admin/login.ts:34-56 | an unknown email and a wrong password get the identical reply, 401 "Invalid credentials" |
| AdminSession.LoginStoreFaultIsServerError | pages/api/admin/login.ts:85-91 | with both fields given, an unreachable store gives 500 "Internal server error" without a cookie, after one attempted query |
| AdminSession.LoginSucceedsOnlyWithValidPassword | pages/api/admin/login.ts:30-83 | a 200 reply happens exactly when the store is up, an admin has that email and the password verifies; it carries `admin-token=<token>; HttpOnly; Path=/; Max-Age=86400; SameSite=Lax` for a token created from that admin's id, email and name |
| AdminSession.LoginTokenIdentifiesAdmin | pages/api/admin/login.ts:61-71 | the token the login cookie carries is non-empty and, presented as the `admin-token` cookie, yields that admin's id, email and name with `iat` and `exp` 24 hours apart, until it expires |
| AdminSession.Logout | pages/api/admin/logout.ts:4-19 | sends exactly the logout outcome |
| AdminSession.LogoutClearsSession | pages/api/admin/logout.ts:5-18 | non-POST gets 405 and no header; POST gets 200 with exactly the `admin-token=; HttpOnly; Path=/; Max-Age=0; SameSite=Strict` cookie, whose `admin-token=` entry, sent back as a header, carries an empty token and so gives no user |
| AdminSession.SplitPrefixEntry | pages/api/admin/logout.ts:13 | the first `"; "` part of a `Set-Cookie` value is its name=value pair |
| AdminSession.ChangePassword | pages/api/admin/change-password.ts:6-83 | sends exactly the change-password outcome and leaves the store as it says; no query before the request is accepted, then one lookup, and the update as a second query once the current password verifies |
| AdminSession.ChangePasswordFailureLeavesStore | pages/api/admin/change-password.ts:7-82 | every reply other than 200 leaves every admin row unchanged; the error replies in order: 405 for non-POST; 401 "Unauthorized" without a valid session; 400 "Current password and new password are required"; 400 "New password must be at least 6 characters long"; 500 when the store is unreachable; 404 "Admin not found"; and 401 "Current password is incorrect", a reply distinct from the missing-session one |
| AdminSession.ChangePasswordReplacesOnlyTheHash | pages/api/admin/change-password.ts:54-74 | a 200 reply happens exactly when the request is accepted (POST, a valid session, both fields, a new password of at least 6 characters), the store is up, the session's admin exists and the current password verifies; then only that admin's hash changes, to the bcrypt hash of the new password, and emails stay unique |
| AdminSession.SessionScenario | pages/api/admin/change-password.ts:16-74 | log in, change the password with the issued cookie while it is live, log out: the change succeeds, the old password then gets 401 and the new one logs in |
| Sorting.SortNewestFirst | pages/api/applications.js:36-38 | sorts the array in place into descending key order; the elements are a permutation of the input |
| Sorting.Insert | pages/api/applications.js:36-38 | inserts the next element into the sorted prefix; the prefix stays sorted, the elements stay a permutation, and the elements after it are untouched |
| Sorting.Swap | pages/api/applications.js:36-38 | exchanges two elements and nothing else |
| RecordStore.ValuesOfKeyedRows | pages/api/admin/applications.ts:28-30 | in a table keyed by record id, there are as many distinct rows as ids |
| RecordStore.ListingHasEveryRowOnce | pages/api/admin/applications.ts:28-30 | a newest-first listing of the table has one entry per row, and each entry is the row stored under its id |
| RecordStore.Table.FindManyNewestFirst | pages/api/admin/applications.ts:28-30 | `findMany({orderBy: desc})`: one query; fails exactly when offline; otherwise the rows newest first, a permutation of the table |
| RecordStore.Table.Create | pages/api/membership/apply.ts:49-66 | one query; fails when offline or the id is taken; otherwise adds exactly that row |
| RecordStore.Table.UpdateStatus | pages/api/admin/applications.ts:56-59 | one query; no result (a throw) when offline or the id is missing; otherwise only that row's status changes, and the updated row is returned |
| RecordStore.Table.Delete | pages/api/admin/applications.ts:79-81 | one query; fails when offline or the id is missing; otherwise removes exactly that row |
| AdminRecords.Handle | pages/api/admin/applications.ts:6-101 | the shared handler of the two protected collections: sends the outcome of the decided action and leaves the store as that outcome says, with exactly the queries the action needs |
| AdminRecords.HandleApplications | pages/api/admin/applications.ts:6-101 | the applications endpoint, with statuses pending/approved/rejected and its own messages |
| AdminRecords.HandleFeedback | pages/api/admin/feedback.ts:6-92 | the feedback endpoint, with statuses unread/read/resolved and its own messages |
| AdminRecords.AuthGateComesFirst | pages/api/admin/applications.ts:12-22 | with no valid session (or an empty id), every method gets 401 "Unauthorized" and no query is made |
| AdminRecords.DispatchIsExact | pages/api/admin/applications.ts:26-92 | in both directions: a listing exactly for an authorised GET, a status update of the given id exactly for an authorised PATCH with an id and an allowed status, a delete exactly for an authorised DELETE with an id, and 405 exactly for an authorised request with any other method; a PATCH missing id or status gets 400 with the collection's "ID and status are required" message, a DELETE missing the id its "ID is required" message |
| AdminRecords.InvalidStatusLeavesStore | pages/api/admin/applications.ts:49-54 | a PATCH with a status outside the collection's enumeration gets 400 "Invalid status" and changes nothing |
| AdminRecords.FailureLeavesStore | pages/api/admin/applications.ts:42-100 | every reply other than 200 leaves the table unchanged |
| AdminRecords.StoreFaultIsServerError | pages/api/admin/applications.ts:94-100 | a store call that throws (an unreachable store, or an update or delete of an id the table does not hold) gets 500 "Internal server error" and leaves the table as it was; a 500 happens only then |
| AdminRecords.UpdateChangesOnlyStatus | pages/api/admin/applications.ts:56-65 | a successful PATCH changes only the status of the one row, and returns that row |
| AdminRecords.DeleteRemovesExactlyOne | pages/api/admin/applications.ts:69-86 | a successful DELETE removes exactly the named row and keeps every other row |
| AdminRecords.ListingIsWholeTable | pages/api/admin/feedback.ts:18-27 | a successful GET lists every row once, each entry as stored, and changes nothing |
| AdminRecords.StatusesStayAllowed | pages/api/admin/applications.ts:49-59 | when every stored status is in the enumeration, it still is after any request |
| Email.ValidEmailIsPattern | pages/api/membership/apply.ts:40-41 | `/^[^\s@]+@[^\s@]+\.[^\s@]+$/` accepts exactly the strings with no whitespace, exactly one `@` not at the start, and a `.` after the `@` that is neither the domain's first nor its last character |
| Email.ValidEmailParts | pages/api/feedback/submit.ts:25-26 | an accepted address is a non-empty local part, `@`, and a domain with an inner `.` |
| Submissions.Screen | pages/api/membership/apply.ts:7-46 | the shared validation prefix: 405 for non-POST, 400 for a falsy required field, 400 "Invalid email format" exactly when the email fails the pattern, otherwise accepted |
| Submissions.SubmitMembership | pages/api/membership/apply.ts:5-81 | sends exactly the membership outcome and leaves the store as it says; no query when screening refuses |
| Submissions.MembershipCreatesOneRow | pages/api/membership/apply.ts:49-80 | a 200 reply adds exactly one pending application under the reported id; any other reply adds nothing |
| Submissions.MembershipFieldDefaults | pages/api/membership/apply.ts:50-64 | the stored record keeps the given name, email and type, defaults the address fields to "" and the professional fields to null, and starts pending |
| Submissions.MembershipKeepsStatusesAllowed | pages/api/membership/apply.ts:64 | a new application keeps every stored status in the applications enumeration |
| Submissions.SubmitFeedback | pages/api/feedback/submit.ts:5-58 | sends exactly the feedback outcome and leaves the store as it says; no query when screening refuses |
| Submissions.FeedbackCreatesOneRow | pages/api/feedback/submit.ts:34-49 | a 200 reply adds exactly one unread message under the reported id; any other reply adds nothing |
| Submissions.FeedbackKeepsStatusesAllowed | pages/api/feedback/submit.ts:41 | a new message keeps every stored status in the feedback enumeration |
| FileApplications.DateDigitsOfIsoInstant | pages/api/apply.js:96 | for an ISO-8601 instant, the date part is the eight digits YYYYMMDD |
| FileApplications.RandomPartFormat | pages/api/apply.js:97 | the random part is characters 2 to 7 of the base-36 fraction (fewer when it is shorter), digits kept and letters upper-cased |
| FileApplications.ApplicationIdFormat | pages/api/apply.js:94-99 | an id is `APP-`, the eight date digits, `-`, and the random part of up to six digits or capital letters |
| FileApplications.ZeroRandomGivesEmptyPart | pages/api/apply.js:97-98 | when `Math.random()` returns 0, its base-36 text `"0"` has no fraction, the random part is empty and the id is `APP-`, the eight date digits and a trailing `-` |
| FileApplications.ApplicationsFile.Save | pages/api/apply.js:105-128 | appends the application to the stored list (an absent file counts as empty); fails without writing when the file is unparsable or unwritable |
| FileApplications.SubmitApplication | pages/api/apply.js:16-88 | sends exactly the submission outcome and leaves the file as it says |
| FileApplications.SubmissionAppendsOne | pages/api/apply.js:18-79 | a 200 reply appends exactly one pending application whose id is the reported one; any other reply leaves the file as it was |
| FileApplications.ApplicationFieldDefaults | pages/api/apply.js:46-57 | the record keeps name, email and category, defaults message/phone/profession to "", and takes its address from `x-forwarded-for` when truthy, else from the connection |
| FileApplications.ListApplications | pages/api/applications.js:9-53 | sends 405 for non-GET, an empty list for a missing file, 500 for a garbled one, and otherwise the stored applications newest first with their count |
| FileApplications.ListingCountsEverything | pages/api/applications.js:36-44 | a 200 listing holds exactly the stored applications, and its count is their number |
| FileApplications.SubmittedApplicationIsListed | pages/api/apply.js:114-125 | after a successful submission, the next listing has one more application, and it holds the reported id |
| FileApplications.FeeLookupFindsInheritedMembers | pages/api/apply.js:215-224 | as written, `fees[category]` finds an inherited member for `"toString"`, so the default text is not returned |
| FileApplications.FeeInformationCases | pages/api/apply.js:215-224 | corrected lookup: each of the four categories gets its text and every other string gets the default; it agrees with the code as written on every name that is not an `Object.prototype` member |
| Dashboard.Filtered | pages/admin/dashboard.tsx:87-90 | keeps exactly the applications for which the filter is "all" or that have that status |
| Dashboard.FilteredAppend | pages/admin/dashboard.tsx:87-90 | filtering distributes over concatenation, so order is kept |
| Dashboard.FilterAllKeepsEverything | pages/admin/dashboard.tsx:87-88 | the "all" filter returns the list unchanged |
| Dashboard.StatsAddUp | pages/admin/dashboard.tsx:92-97 | the total is the list's length, the three counts never exceed it, and they add up to it exactly when every status is pending, approved or rejected |
| Dashboard.ButtonCountsMatchFilter | pages/admin/dashboard.tsx:297-315 | each filter button's counter equals the number of applications that filter shows |
| Dashboard.StatusBadgeCases | pages/admin/dashboard.tsx:42-51 | each enumerated status gets its own badge; an unknown status falls back to the Pending badge |
| Dashboard.Preview | pages/admin/dashboard.tsx:468 | a message of at most 200 characters is shown whole; a longer one as its first 200 characters plus "..." |
| Dashboard.OfferedActionsAreValidAndAdvance | pages/admin/dashboard.tsx:382-397 | offered status changes are allowed by the server and only move forward (pending to approved or rejected; unread to read to resolved); pending, unread and read records, and only those, get such buttons |
| Dashboard.ClientRefusal | pages/admin/dashboard.tsx:169-177 | refuses mismatched new passwords first, then ones shorter than 6 characters, otherwise lets the request through |
| Dashboard.ClientLengthCheckMatchesServer | pages/admin/dashboard.tsx:174-177 | the form's length rule is the server's: an equal pair is let through exactly when it has at least 6 characters |
| Dashboard.PasswordForm.HandleChangePassword | pages/admin/dashboard.tsx:165-199 | sends current and new password exactly when the client checks pass; shows the reply's message; on success it clears the three fields, otherwise it keeps them |
| Dashboard.AnswerMessageCases | pages/admin/dashboard.tsx:188-198 | a success message appears exactly for a `success` reply; otherwise the server's message or a non-empty fallback is shown |

## Left out

- Logging: every `console.log`/`console.error` line is left out, including the partial
  token and password-check logs. The notification e-mails in `pages/api/apply.js` are only
  logs, and their failures are ignored, so no reply depends on them.
- Transport and framework: request parsing, routing, JSON serialisation and the headers
  Next.js adds are not modelled. A body is a record of optional strings. Non-string JSON
  values (a numeric `yearsOfExperience`, say) and a missing `req.body` (a throw, hence 500)
  are not modelled.
- File system: `mkdirSync` and path building are not modelled. `JSON.parse` and
  `JSON.stringify` are abstracted as the `FileContents` states `Missing`, `Garbled` and
  `Stored`. A write that fails after truncating the file is not modelled. A parsed value
  that is not an array counts as `Garbled`.
- Concurrency: `saveApplication` in `pages/api/apply.js` reads, appends and writes the file
  synchronously, so requests inside one Node process cannot interleave there. Separate
  processes sharing `data/applications.json` could still lose an application between one's
  read and another's write. The model handles one request at a time. Last-write-wins in the
  relational store is not modelled either.
- Auth.HashPassword: the salt is a parameter, and bcrypt's 72-byte truncation of
  passwords is not modelled. `HasherSound` only demands that a password verify against
  its own hash, so the model derives no property that would need the hash to be injective.
- Auth.VerifyToken: the signature check and jose's other checks (`nbf`, clock tolerance,
  malformed input) sit inside `TokenCodec.open`; `VerifyToken` adds only the expiry. As in
  `lib/auth.ts:30`, which passes no `algorithms` option, nothing restricts the header's `alg`.
- Auth.CreateToken: the issue time and the expiry are computed from one clock reading.
- The fallback signing secret in `lib/auth.ts:4-6` is part of the `TokenCodec` value,
  which the model does not inspect; the model cannot tell a weak secret from a strong one.
- The unique-email constraint of the admin table is the assumption
  `AdminSession.WellFormed`. The Prisma schema is not part of this model.
- Generated identifiers: the record ids and timestamps the database generates are parameters. A duplicate id
  makes `create` fail (500).
- Sorting.SortNewestFirst: the order among records with equal timestamps is left open.
  `Array.prototype.sort` is stable and the database order for ties is unspecified.
- FileApplications.ListApplications: `new Date(...)` of an unparsable `submittedAt` gives
  NaN and an inconsistent comparator. The model takes the instant as a total function
  `instant` supplied by the caller.
- String lengths count characters. JavaScript counts UTF-16 code units, so the 6-character
  password minimum and the 200-character preview can differ for text outside the Basic
  Multilingual Plane. `Text.UpperAscii` upper-cases ASCII only, which is all base-36 text
  holds.
- Dashboard.StatusBadgeCases: the `styles[status]` lookup could also find inherited
  `Object.prototype` members. Stored statuses do not name one as long as the stored statuses
  start out allowed, because `AdminRecords.StatusesStayAllowed`,
  `Submissions.MembershipKeepsStatusesAllowed` and `Submissions.FeedbackKeepsStatusesAllowed`
  keep that property; the table's starting contents are not modelled.
- Dashboard rendering, React state other than the password form, `fetch` and its network
  failure (a parameter `None`), the data loading, the per-record status-update callbacks
  (`updateApplicationStatus`, `updateFeedbackStatus`) and logout navigation are not
  modelled. The server side of each callback is modelled by the handlers above. No
  dashboard control issues the DELETE that the two protected handlers accept.
- Public pages, components and the `scripts/` helpers are outside the core.

## Findings

| source | as written | input that shows it | evidently intended | confidence | as-written member | corrected member |
|---|---|---|---|---|---|---|
| pages/api/apply.js:223 | `fees[category] \|\| default` also finds members inherited from `Object.prototype`, so those categories get a function or object instead of the default text | category `"toString"` (likewise `"constructor"`, `"__proto__"`) | only the four listed categories have fee text; every other category gets "Membership fee information will be provided." | medium, not executed | FileApplications.FeeLookupFindsInheritedMembers | FileApplications.FeeInformationCases |
