# note-taker: a Dafny model of the validation, API and store core

note-taker is a small Next.js note-taking application. Users register with an email and a password, sign in, and then list and create their own notes. This project models its core in Dafny and proves properties of that model:

- **Schemas** (`schemas.dfy`): the three zod schemas `registerSchema`, `createNoteSchema` and `updateNoteSchema`.
  - A string schema is a chain of checks run in declaration order. Every failed check adds one issue, and `.trim()` rewrites the value at its own place in the chain.
  - A missing required key gives one "Required" issue (zod 3; see Left out).
  - Object issues come key by key in declaration order.
  - The password regular expression is modelled character by character, including the rule that `.` stops at a line terminator.
- **JsStrings** (`js_strings.dfy`): what `String.prototype.trim` strips (ECMAScript WhiteSpace and LineTerminator), and the line end a regular expression `.*` can reach.
- **NotesRoute** (`notes_route.dfy`):
  - `GET /api/notes` is a function over the note table.
  - `POST /api/notes` is a method of the `NoteTable` class, which holds the table as a sequence of rows.
- **RegisterRoute** (`register_route.dfy`): `POST /api/register` is a method of the `UserTable` class, which holds a map from email to user row.
- **NotesStore** (`notes_store.dfy`): the zustand store `useNotesStore` is a `Store` class. It has the fields `notes` and `selectedNote` and its six actions.
- **Middleware** (`middleware.ts` → `middleware.dfy`): the route guard that redirects cookie-less requests for "/notes…" to "/login".
- **Common** (`common.dfy`): `Option`, `Array.prototype.filter`, `Array.prototype.join` and `String.prototype.startsWith`.

Several things outside the core become inputs of the model:

- The session that `auth()` yields is an `Option<string>` user id.
- zod's email regular expression is a predicate `isEmail`.
- bcrypt's `hash` is a function parameter, called with 12 salt rounds.
- Ids and timestamps the database generates are inputs.
- Whether a storage call throws is an input: `storageFails` in the notes handlers, `Fault` in the register handler.
- A request body that is not JSON is `None`, and the handler answers 500.

## Model

| member | source | states |
|---|---|---|
| Common.Filter | store/useNotesStore.ts:38 | the kept elements are exactly the elements of the input that satisfy the test, each as often as in the input, in their original order (a subsequence) |
| Common.FilterSnoc | app/api/notes/route.ts:14-17 | filtering a list that grew at the end gives the old filtered list, plus the new element if it passes |
| Common.Join | app/api/register/route.ts:53 | one part joins to itself, no parts to "", and the result starts with the first part |
| JsStrings.TrimStart | lib/validations/schemas.ts:31 | the result is a suffix of the input; everything removed is whitespace or a line terminator; the result does not start with one |
| JsStrings.TrimEnd | lib/validations/schemas.ts:31 | the result is a prefix; everything removed is trimmable; the result does not end with a trimmable character |
| JsStrings.IsLineTerminator | lib/validations/schemas.ts:15 | the ECMAScript line terminators LF, CR, U+2028 and U+2029: the characters `trim` strips besides whitespace and the ones a regular expression `.` does not match |
| JsStrings.IsWhiteSpace | lib/validations/schemas.ts:31 | the ECMAScript WhiteSpace characters that `trim` strips: TAB, VT, FF, ZWNBSP, space and the other Unicode space separators |
| JsStrings.CutAt | lib/validations/schemas.ts:31 | a slice of the string from which only trimmable characters were cut away, at the front and at the back |
| JsStrings.Trim | lib/validations/schemas.ts:31 | the result is the input with a trimmable front and a trimmable back cut away, and it has no trimmable character at either end |
| JsStrings.TrimAllWhiteSpace | lib/validations/schemas.ts:31 | a string made only of whitespace and line terminators trims to "" |
| JsStrings.TrimUntrimmed | lib/validations/schemas.ts:31 | a string with no trimmable character at either end is left unchanged |
| JsStrings.TrimIdempotent | lib/validations/schemas.ts:31 | trimming twice equals trimming once |
| JsStrings.LineEnd | lib/validations/schemas.ts:15 | the line end lies between the start position and the end of the string |
| JsStrings.LineEndIsFirstTerminator | lib/validations/schemas.ts:15 | no line terminator occurs before the line end, and a line end short of the string's end sits on a line terminator |
| JsStrings.LineEndWhole | lib/validations/schemas.ts:15 | a string without line terminators is a single line that runs to its end |
| Schemas.MatchesPasswordPattern | lib/validations/schemas.ts:15 | the three lookaheads of the password pattern: a lower-case letter, an upper-case letter and a digit, each before the first line terminator |
| Schemas.Passes | lib/validations/schemas.ts:7-20 | when one check accepts a value: `.min(n)` at least n characters, `.max(n)` at most n, `.email()` the email predicate, `.regex` the password pattern; `.trim()` always accepts |
| Schemas.HasCharInMeans | lib/validations/schemas.ts:15 | the character-class test holds exactly when some character in the index range lies in the class |
| Schemas.FailureOf | lib/validations/schemas.ts:7-9 | a check adds no message exactly when it accepts the value, and otherwise adds its own message |
| Schemas.RunChecks | lib/validations/schemas.ts:5-9 | a chain reports at most one failure per check |
| Schemas.IssuesAt | app/api/register/route.ts:52-55 | one issue per failure message, in order, each at the key's path |
| Schemas.StringField | lib/validations/schemas.ts:5-9 | a missing key gives one "Required" issue; otherwise the field is valid exactly when no check failed, its value is the chain's output, and every issue sits at the key |
| Schemas.OptionalStringField | lib/validations/schemas.ts:46 | with `.optional()` a missing key is valid and stays missing; a present key is judged as by the required field |
| Schemas.RunChecksCons | lib/validations/schemas.ts:5-9 | how a chain unfolds at its first check: `.trim()` changes the value seen by later checks, any other check adds its failure in front |
| Schemas.TwoChecks | lib/validations/schemas.ts:20-22 | two checks with no trim between them keep the value and report their failures in order |
| Schemas.ThreeChecks | lib/validations/schemas.ts:5-17 | the same for three checks, as in the email and password chains |
| Schemas.TrimOnly | lib/validations/schemas.ts:31 | `.trim()` alone never fails and yields the trimmed value |
| Schemas.CheckThenTrim | lib/validations/schemas.ts:30-31 | a check before `.trim()` tests the raw value |
| Schemas.BoundsThenTrim | lib/validations/schemas.ts:27-31 | with `.min().max().trim()` both bounds test the raw string and the output is the trimmed string |
| Schemas.TrimThenBounds | lib/validations/schemas.ts:27-31 | with `.trim()` first, both bounds test the trimmed string |
| Schemas.EmailField | lib/validations/schemas.ts:5-9 | the email is valid exactly when it has 1 to 255 characters and is an email; it is kept unchanged; the issues are "Email is required", "Invalid email format" and "Email must be less than 255 characters", each present exactly when its rule fails, in that order |
| Schemas.PasswordField | lib/validations/schemas.ts:10-17 | the password is valid exactly when it has 8 to 100 characters and matches the pattern; the three messages appear exactly for the failed rules, in declaration order |
| Schemas.NameField | lib/validations/schemas.ts:18-22 | the name is valid exactly when it is missing or has at most 100 characters; it is kept as given; otherwise there is exactly one "Name must be less than 100 characters" issue |
| Schemas.RegisterSchema | lib/validations/schemas.ts:4-23 | the body is valid exactly when all three field rules hold, and then the data is the fields unchanged; otherwise the issues are the field issues in the order email, password, name, and there is at least one |
| Schemas.CreateTitleField | lib/validations/schemas.ts:27-31 | the title is valid exactly when its raw length is 1 to 200; the value is the trimmed title; the issues name each failed bound |
| Schemas.CreateContentField | lib/validations/schemas.ts:32-36 | the content is valid exactly when its raw length is 1 to 50000; the value is the trimmed content; the issues name each failed bound |
| Schemas.CreateNoteSchema | lib/validations/schemas.ts:26-37 | a note body is valid exactly when both raw lengths are within bounds; it yields both strings trimmed; otherwise there are title issues followed by content issues |
| Schemas.UpdateTitleField | lib/validations/schemas.ts:41-46 | a missing title is valid and stays missing; a present one is valid exactly when its raw length is 1 to 200, and then it is trimmed; the issues use "Title cannot be empty" |
| Schemas.UpdateContentField | lib/validations/schemas.ts:47-52 | the same for content, with bound 50000 and "Content cannot be empty" |
| Schemas.UpdateNoteSchema | lib/validations/schemas.ts:40-53 | an update is valid exactly when each present field is within bounds; present fields are trimmed and missing ones stay missing; otherwise the issues are the title's followed by the content's |
| Schemas.PasswordPatternSingleLine | lib/validations/schemas.ts:15 | on a password with no line terminator, the pattern holds exactly when the password has a lower-case letter, an upper-case letter and a digit |
| Schemas.PasswordPatternIgnoresLaterLines | lib/validations/schemas.ts:15 | whatever follows the first line terminator never changes whether the pattern matches |
| Schemas.PasswordOneFailure | lib/validations/schemas.ts:10-17 | a password that breaks exactly one rule gets exactly that rule's message |
| Schemas.LineBreakHidesDigit | lib/validations/schemas.ts:15 | "Abcdefg\n1" contains a digit yet fails the pattern |
| Schemas.PasswordPatternStopsAtLineBreak | lib/validations/schemas.ts:14-17 | "Abcdefg\n1" is rejected with the pattern message alone |
| Schemas.NoUpperCase | lib/validations/schemas.ts:15 | "alllowercase1" fails the pattern |
| Schemas.NoUpperCaseRejected | lib/validations/schemas.ts:10-17 | "alllowercase1" is rejected with the pattern message alone |
| Schemas.ShortButPatterned | lib/validations/schemas.ts:15 | "Aa1" matches the pattern |
| Schemas.TooShortRejected | lib/validations/schemas.ts:12 | "Aa1" is rejected with the length message alone |
| Schemas.NoUpperCaseShort | lib/validations/schemas.ts:15 | "abcde" fails the pattern |
| Schemas.ShortLowerCaseTwoIssues | lib/validations/schemas.ts:10-17 | "abcde" gets the length issue and then the pattern issue |
| Schemas.StrongPattern | lib/validations/schemas.ts:15 | "Abcdefg1" matches the pattern |
| Schemas.StrongPasswordAccepted | lib/validations/schemas.ts:10-17 | "Abcdefg1" is accepted unchanged |
| Schemas.NameLiteralAlternativeRedundant | lib/validations/schemas.ts:18-22 | the `.or(z.literal(""))` alternative never changes the result of the name schema |
| Schemas.NameTooLongRejected | lib/validations/schemas.ts:20 | every 101-character name is rejected with one issue at "name" |
| Schemas.TitleLengthBoundary | lib/validations/schemas.ts:30 | every 200-character title is accepted (trimmed) and every 201-character title is rejected with one issue at "title" |
| Schemas.WhitespaceTitleAccepted | lib/validations/schemas.ts:27-31 | a title of 1 to 200 whitespace characters passes and is turned into "" |
| Schemas.UpdateEmptyStringRejected | lib/validations/schemas.ts:41-52 | in an update an explicit "" is rejected, not treated as an omitted field |
| Schemas.TrimFirstTitleField | lib/validations/schemas.ts:27-31 | with trim first, the title is valid exactly when its trimmed length is 1 to 200, and the value is the trimmed title |
| Schemas.TrimFirstContentField | lib/validations/schemas.ts:32-36 | with trim first, the content is valid exactly when its trimmed length is 1 to 50000 |
| Schemas.TrimFirstCreateNoteSchema | lib/validations/schemas.ts:26-37 | with trim first, an accepted note has a non-empty title and content, neither starting with whitespace |
| Schemas.TrimFirstRejectsWhitespaceTitle | lib/validations/schemas.ts:27-31 | a whitespace-only title is accepted by the schema as written and rejected by the trim-first schema |
| Common.StartsWith | middleware.ts:10 | `startsWith`: the string begins with the prefix, compared character by character |
| Middleware.HasSessionCookie | middleware.ts:6-7 | a cookie named "authjs.session-token" or "__Secure-authjs.session-token" was sent, whatever its value |
| Middleware.Guard | middleware.ts:4-15 | the request is redirected exactly when its path starts with "/notes" and neither session cookie is present, and the redirect goes to "/login" |
| Middleware.EitherCookieSuffices | middleware.ts:6-7 | either session cookie alone, with any value, lets a request through |
| Middleware.UnprotectedPathPasses | middleware.ts:10 | a path that does not start with "/notes" always passes |
| Middleware.CookieValuesIgnored | middleware.ts:6-10 | two requests with the same cookie names get the same decision, whatever the values |
| Middleware.RawPrefixExamples | middleware.ts:10 | "/notes", "/notes/x" and "/notesx" without cookies are redirected; "/note" and "/login" pass; an empty-valued session cookie suffices |
| NotesStore.ReplaceById | store/useNotesStore.ts:29-31 | the list keeps its length, and every position holds the update if its id matches, and the original note otherwise |
| NotesStore.RemoveById | store/useNotesStore.ts:38 | the result is a subsequence of the list that holds exactly the notes with a different id, each as often as before |
| NotesStore.ReplaceByIdKeepsIds | store/useNotesStore.ts:29-31 | an id is listed after the replacement exactly when it was listed before |
| NotesStore.RemoveByIdKeepsOtherIds | store/useNotesStore.ts:38 | every other id is listed after a removal exactly when it was listed before |
| NotesStore.RemoveByIdRemovesAll | store/useNotesStore.ts:38 | no note with the removed id is left |
| NotesStore.Store.constructor | store/useNotesStore.ts:19-20 | the store starts with no notes, nothing selected, and is consistent |
| NotesStore.Store.SetNotes | store/useNotesStore.ts:22 | the list is replaced and the selection is kept |
| NotesStore.Store.AddNote | store/useNotesStore.ts:24-26 | the note is appended, the selection is kept, and a consistent store stays consistent |
| NotesStore.Store.UpdateNoteInList | store/useNotesStore.ts:28-35 | every note with the id is replaced, the selection is replaced when it has the id, and consistency is kept |
| NotesStore.Store.RemoveNote | store/useNotesStore.ts:37-40 | the notes with the id leave the list, the selection is cleared when it has the id, and consistency is kept |
| NotesStore.Store.SelectNote | store/useNotesStore.ts:42 | the selection becomes the given note or null; the list is unchanged |
| NotesStore.Store.ClearSelection | store/useNotesStore.ts:44 | the selection is cleared, the list is unchanged, and the store is consistent |
| NotesStore.SelectUnlistedNote | store/useNotesStore.ts:37-42 | selecting a note that was never added makes the store inconsistent; removing that id then leaves an empty, consistent store with nothing selected |
| NotesStore.ReplaceListUnderSelection | store/useNotesStore.ts:22 | after a listed note is selected, `setNotes([])` keeps the selection and so makes a consistent store inconsistent |
| NotesRoute.Authenticated | app/api/notes/route.ts:10 | `session?.user?.id` is truthy (tested the same way at line 38): a user id is present and is not "" |
| NotesRoute.Present | app/api/notes/route.ts:44 | a body field passes `!value` being false: it is present and is not "" |
| NotesRoute.Owned | app/api/notes/route.ts:14-17 | the rows listed are exactly the user's rows, each as often as in the table |
| NotesRoute.OwnedSnoc | app/api/notes/route.ts:14-17 | a new row is added at the end of its owner's rows and of no one else's |
| NotesRoute.SortedCons | app/api/notes/route.ts:18-20 | a row no older than every row of a sorted list may go in front of it |
| NotesRoute.NoneNewerThan | app/api/notes/route.ts:18-20 | adding one row under an upper bound on `updatedAt` keeps the bound for the whole list |
| NotesRoute.InsertByUpdated | app/api/notes/route.ts:18-20 | inserting into a list sorted latest-first keeps it sorted and adds exactly that row |
| NotesRoute.SortByUpdatedDesc | app/api/notes/route.ts:18-20 | the result is sorted latest-first and is a permutation of the input |
| NotesRoute.ListNotes | app/api/notes/route.ts:6-31 | 401 without a user id (missing or ""), 500 when the query throws, else 200 with exactly the user's rows, each as often as stored, latest update first |
| NotesRoute.ListNotesOnlyOwn | app/api/notes/route.ts:14-17 | a listing never shows another user's row |
| NotesRoute.ListAfterCreate | app/api/notes/route.ts:14-21 | after user u adds a row, u's listing shows it and every other user's listing is unchanged |
| NotesRoute.NoteTable.constructor | app/api/notes/route.ts:51 | the table starts with the given rows |
| NotesRoute.NoteTable.Post | app/api/notes/route.ts:34-67 | 401 without a user id; 500 on a non-JSON body; 400 "Title and content are required" when either field is missing or ""; 500 when the insert throws; otherwise 201 with the row built from the raw title, content and session user, appended to the table; on every non-201 answer the table is unchanged |
| NotesRoute.CreateThenList | app/api/notes/route.ts:34-59 | a created note belongs to its creator, shows in the creator's listing, and is absent from another user's unchanged listing |
| RegisterRoute.ToDetails | app/api/register/route.ts:52-55 | one detail per issue, in order, with the path joined by "." as field and the issue's message |
| RegisterRoute.RegisterDetailFields | app/api/register/route.ts:52-55 | every detail's field is "email", "password" or "name" |
| RegisterRoute.ShortPasswordDetails | app/api/register/route.ts:48-58 | with a good email, password "abcde" gives the length detail and then the pattern detail, both for "password" |
| RegisterRoute.UserTable.constructor | app/api/register/route.ts:15-17 | the user table starts empty, with every row filed under its own email |
| RegisterRoute.UserTable.Register | app/api/register/route.ts:7-67 | 500 on a non-JSON body; 400 "Validation failed" with the details when the schema rejects; 500 when the lookup throws; 400 "User already exists" for a known email; 500 when hashing or the insert throws; otherwise 201 with the public user, and the table gains exactly the row with the hashed password; on every non-201 answer the table is unchanged and each row stays under its own email |
| RegisterRoute.RegisterTwice | app/api/register/route.ts:15-24 | registering the same valid body twice creates the user once and then answers "User already exists" |

## Left out

- `auth()` throwing, and the session object beyond its user id: the session is an input.
- The request-body JSON parser is not modelled. A body that is not JSON is `None`. A JSON `null` body makes `const { title, content }` throw in the source; the model does not represent that value.
- Non-string JSON values (numbers, arrays, objects) for title, content, email, password or name are not modelled. Every field is a string or missing.
- The zod email regular expression: it is the predicate parameter `isEmail`.
- bcrypt: `hash` is an uninterpreted function of the password and the cost 12. Its salting and cost are not modelled.
- String lengths are counted in Dafny characters, taken to equal the source's UTF-16 code units. Surrogate pairs are not modelled.
- The database's generated ids and timestamps are inputs. `updatedAt` refreshing is not part of the modelled operations.
- NotesRoute.SortByUpdatedDesc: the database leaves the order of rows with equal `updatedAt` open. The model keeps table order for them, and only sortedness and permutation are proved, not a particular order of ties.
- RegisterRoute.UserTable.Register: the lookup-then-create race between two concurrent registrations with the same email is not modelled, because handlers run one at a time here. The unique index that would make the second insert throw is represented only by the `InsertFails` fault.
- The `config.matcher` of middleware.ts (`/notes/:path*`): it decides which requests reach the guard and is part of the framework. Middleware.Guard models the guard for every path.
- The `console.error` logging in the handlers is I/O and is not modelled.
- app/api/notes/[id]/route.ts (read, PATCH, DELETE of one note) is not part of this model. It calls neither schema: its PATCH takes `title` and `content` straight from the body and writes each one only if it is truthy. No handler of the repository calls `createNoteSchema` or `updateNoteSchema`. Both schemas are modelled as declared, and the register schema as `POST /api/register` uses it.
- The pages, the fetch wrappers in lib/api/notes.ts and the search in the notes page are not part of this model.
- The messages "less than 255/100/200/50,000 characters" go with inclusive bounds: a string of exactly the bound passes. The model follows the code.
- The note schemas put `.min(1)` and `.max(...)` before `.trim()`, so the bounds test the untrimmed string. Their messages "Title is required" and "Title cannot be empty", and the client's `!title.trim()` test before it sends a note (app/notes/page.tsx:52,73), point to bounds on the trimmed string. The model follows the declared order (see Findings).
- `POST /api/notes` does not call `createNoteSchema` (app/api/notes/route.ts:42-57). It only tests that both fields are truthy and stores them as sent, untrimmed. NotesRoute.NoteTable.Post models exactly that.
- The schemas are modelled with zod 3 behaviour, since no file pins the zod version:
  - a missing required string key gives one issue with the message "Required";
  - for `.or()`, when both alternatives fail, the issues of the first alternative are reported.
  zod 4 reports a missing key as "Invalid input: expected string, received undefined", and Schemas.RequiredMessage would then differ.

## Findings

| source | as written | input that shows it | evidently intended | confidence | as-written member | corrected member |
|---|---|---|---|---|---|---|
| lib/validations/schemas.ts:27-36 | `.min(1)` and `.max(...)` come before `.trim()`, so the bounds test the untrimmed string | title `"   "` with any content of legal length: accepted, and the title becomes `""` | the bounds test the trimmed string, so a whitespace-only title or content is rejected ("Title is required") | not executed | Schemas.WhitespaceTitleAccepted | Schemas.TrimFirstCreateNoteSchema |
