# Clustify agent: a Dafny model of its server and session core

This project models the parts of the Clustify agent where something can go
wrong for a user:

- the Express server: the bearer-token gate in front of the protected
  routes, the multer upload rules of the submit route (extension filter,
  size and count limits, stored names), and the register, login, profile,
  submit and history handlers over an in-memory picture of the two MongoDB
  collections;
- the server's settings, derived from the environment (`PORT`,
  `JWT_SECRET`, `SALT_ROUNDS`), including the `parseInt` that reads the salt
  rounds and the `path.extname` the upload rules rely on;
- the client's session context: restoring the user on mount, the demo
  login, login and registration against the server, and logout, over the
  browser's `localStorage`;
- the client's theme context: the initial theme, the toggle, and the
  effect that stores the theme and sets the `dark` class;
- the tips list: `parseDynamicList`, which turns the agent's free text into
  title/description pairs, and the text the copy button produces.

Everything is a pure function over immutable data. A handler takes the
deployment (environment, loaded settings, libraries), the server state and
the time elapsed since the last request, and returns the reply together with
the next state. bcrypt, jsonwebtoken and uuid are function values in
`Collaborators.Services`; `Collaborators.Lawful` collects the few facts the
proofs assume about them, and `ToyLibraries.ToyLawful` exhibits collaborators
meeting all of them. The server's answers to the client, the clock, and
`JSON.stringify`/`JSON.parse` are inputs of the client-side functions.

Where the documented API and the code disagree, the model follows the code:

- login, profile and history answer 201, not 200;
- a rejected upload reaches Express's default error handler and answers 500
  with its HTML error page, not 400;
- `jwt.sign` uses `JWT_SECRET || "your-secret-key"` while `jwt.verify` uses
  `JWT_SECRET` alone, so with the variable unset or empty no token is ever
  accepted (`AuthGate.NoSecretNoAccess`);
- the pre-check for an existing user, `User.findOne({ email })`, is where
  the outcome for a differently written duplicate ("A@x.io " for a stored
  "a@x.io") depends on the Mongoose version, as `lookup` in the model
  records. Mongoose 5 and later run the schema's `lowercase` and `trim` on
  query filters too, so the pre-check answers 400
  (`ServerFlows.DuplicateCaughtByPreCheck`). Without that the email is
  looked up as given, and the duplicate fails at the unique index with 500
  (`ServerFlows.DuplicateCaughtByIndex`);
- the schema's `minlength: 6` applies to the stored bcrypt hash, so it never
  refuses a short password (`ServerFlows.ShortPasswordAccepted`).

## Model

| member | source | states |
|---|---|---|
| AuthGate.BearerToken | server/server.js:106-107 | the token is the second space-separated field of the Authorization header, absent for a missing header, a header without a space or an empty field; it is never empty and has no space |
| AuthGate.BearerTokenOf | server/server.js:107 | any header `<word> <token>` or `<word> <token> <more>` yields exactly the token, whatever the scheme word |
| AuthGate.BearerTokenShape | server/server.js:107 | conversely, every extracted token sits right after the first space and runs to the next space or the end |
| AuthGate.Authenticate | server/server.js:105-119 | 401 "Access token required" exactly when there is no token; a request is admitted exactly when `config.jwtSecret` is set and non-empty and the token verifies under it, with the verified claims; every other request with a token gets exactly 403 "Invalid token" |
| AuthGate.IssuedTokenAdmitted | server/server.js:148-152 | a token the server signed is admitted with its claims for 24 hours when `JWT_SECRET` is set and non-empty |
| AuthGate.ExpiredTokenRefused | server/server.js:151 | a token the server signed is refused once its 24 hours are over |
| AuthGate.NoSecretNoAccess | server/server.js:113-116 | with `JWT_SECRET` unset no request passes the gate |
| Config.Port | server/config.js:2 | the port is `PORT` when set and non-empty, else 5000 |
| Config.JwtSecret | server/config.js:4 | the verification key is `JWT_SECRET` exactly, absent when unset |
| Config.SigningKey | server/server.js:150 | the signing key is `JWT_SECRET` when set and non-empty, else "your-secret-key"; never empty |
| Config.KeysAgree | server/server.js:148-152 | the signing key equals the verification key exactly when `JWT_SECRET` is set and non-empty |
| Config.SaltRounds | server/config.js:5 | the salt rounds are never zero, and 12 when `SALT_ROUNDS` is unset |
| Config.RawSaltRounds | server/config.js:5 | no contract of its own: the text `parseInt` receives, the variable or "undefined"; `Config.SaltRounds` and `Config.SaltRoundsParsed` state what comes of it |
| Config.SaltRoundsParsed | server/config.js:5 | a set `SALT_ROUNDS` counts through its parsed value unless that is `NaN` or zero, which give 12 |
| Config.SaltRoundsReadsPrefix | server/config.js:5 | a setting such as "  -7 rounds" gives the signed number in front of the first non-digit |
| Config.Load | server/config.js:1-6 | the settings object holds the port, the verification key and the salt rounds, each derived as above |
| JsNumber.ParseInt | server/config.js:5 | `parseInt` of blank text is `NaN`, and a negative result comes only from text whose first non-blank character is `-` |
| JsNumber.ParseIntDecimal | server/config.js:5 | `parseInt` reads back the decimal rendering of any integer after any white space and before any non-digit |
| JsNumber.ParseIntHex | server/config.js:5 | a `0x` prefix makes `parseInt` read base 16 |
| JsNumber.ParseIntNoDigit | server/config.js:5 | a text starting with anything but white space, a sign or a digit is `NaN` |
| JsNumber.ParseIntUndefined | server/config.js:5 | an unset variable, read as "undefined", is `NaN` |
| JsNumber.Decimal | server/server.js:249 | `${n}` renders a natural number as decimal digits without leading zeros whose value is `n` |
| NodePath.ExtName | server/server.js:26 | `path.extname` is empty or a dot followed by a text without dot or slash |
| NodePath.BaseName | server/server.js:26 | the last path component `path.extname` looks at holds no slash |
| NodePath.ExtNameOf | server/server.js:34 | a name `<stem>.<ext>` has the extension `.<ext>` |
| NodePath.ExtNameNoDot | server/server.js:34 | a name without a dot has no extension |
| NodePath.ExtNameAfterPlain | server/server.js:26 | a dot-free, slash-free name followed by an extension reports that extension |
| Uploads.IncludesIsMembership | server/server.js:35 | the allow-list test is membership |
| Uploads.ExtensionAllowed | server/server.js:33-38 | the filter passes a name exactly when its lower-cased extension is ".txt" or ".docker" |
| Uploads.KelvinDockerAllowed | server/server.js:35 | `toLowerCase` turns the Kelvin sign into `k`, so `<stem>.DOC` + U+212A + `ER` passes the filter |
| Uploads.RejectionAt | server/server.js:30-40 | a file passes exactly when it is among the first ten and has an allowed extension and at most 10 MiB; the count check comes first, then the filter, then the size |
| Uploads.FirstRejection | server/server.js:234 | a submission passes exactly when it has at most ten files and each passes; otherwise the error is that of the first file refused |
| Uploads.FirstRefusedDecides | server/server.js:30-40 | the first file refused decides the submission's error |
| Uploads.TooManyFiles | server/server.js:234 | an eleventh file is refused as "Unexpected field" once the first ten pass |
| Uploads.Received | server/server.js:234 | multer hands on only parts with a filename, never more parts than were sent |
| Uploads.ReceivedContents | server/server.js:234 | every named part is handed on as often as it was sent, and no unnamed one |
| Uploads.ReceivedAppend | server/server.js:234 | dropping the unnamed parts keeps the order of the others |
| Uploads.ReceivedAllNamed | server/server.js:234 | a submission whose parts all have names reaches the checks whole |
| Uploads.FileRecords | server/server.js:238-246 | one descriptor per file, in order: the stored name is a fresh uuid plus the original extension, the path is under "uploads/", and the original name, MIME type and size are copied |
| Uploads.StoredName | server/server.js:25-27 | no contract of its own: the uuid numbered `k` followed by the original extension; `Uploads.StoredNameKeepsExtension` and `Uploads.StoredNamesDistinct` state what it promises |
| Uploads.StoredNameKeepsExtension | server/server.js:25-27 | the stored name reports the original name's extension |
| Uploads.StoredNamesDistinct | server/server.js:25-27 | names built from different uuids never collide, whatever the original names |
| Uploads.ExtensionFilterOf | server/server.js:33-38 | the filter looks only at the lower-cased extension, whatever the stem |
| ServerState.NormalizeEmail | server/server.js:56-62 | the stored email is trimmed and has no character `JsText.ToLower` changes |
| ServerState.NormalEmailFixed | server/server.js:56-62 | an email already normal is stored as given |
| ServerState.NormalizeIdempotent | server/server.js:56-62 | normalising twice is normalising once |
| ServerState.Crash | server/server.js:36-38 | a multer error reaches Express's default handler: 500 with its error page for that error, which is not the JSON body `{error}` |
| ServerState.FindByEmail | server/server.js:130 | finds a stored user with exactly that email, and finds none exactly when no stored user has it |
| ServerState.FindById | server/server.js:212 | finds a stored user with exactly that id, and finds none exactly when no stored user has it |
| ServerState.Initial | server/server.js:101-102 | an empty store meets the store invariant |
| ServerState.Valid | server/server.js:56-62 | no contract of its own: the store invariant, which `ServerState.Initial` establishes and `ServerFlows.RunKeepsValid` keeps; ids and emails unique (the `unique` index), emails normal, ids below the counter, nothing dated after the clock, prompts in creation order |
| Accounts.NewUser | server/server.js:139-143 | the new user document takes the next id, the hash, the time, a trimmed name and a normal email |
| Accounts.SchemaValid | server/server.js:50-67 | no contract of its own: `save` validates name and email as required (non-empty) and `minlength: 6` on the hash; `ServerFlows.ShortPasswordAccepted` states the consequence |
| Accounts.IssueToken | server/server.js:148-152 | no contract of its own: `jwt.sign` of `{userId, email}` under `Config.SigningKey`; `AuthGate.IssuedTokenAdmitted` and `AuthGate.ExpiredTokenRefused` state what such a token opens |
| Accounts.Register | server/server.js:125-167 | 400 exactly when the email, as `lookup` rewrites it for the query, is already stored; 201 exactly when neither that email nor its normal form is stored, the trimmed name and normal email are non-empty and the hash has six characters, and then the new user is appended with the next id and the reply carries the issued token and the user without password; every other outcome is 500 and writes nothing |
| Accounts.Login | server/server.js:170-207 | an unknown email and a wrong password get the same 400 "Invalid credentials"; success shows a stored user with a fresh token; nothing is written |
| Accounts.Profile | server/server.js:210-228 | the gate's refusal is passed on; 201 exactly when admitted and the token's user id is stored, showing that user without password; an admitted caller whose user id is not stored gets 404 "User not found"; nothing is written |
| Prompts.MockResponse | server/server.js:249 | the mock answer starts and ends with the fixed texts |
| Prompts.MockResponseRoundTrip | server/server.js:249 | the prompt and the file count can be read back from the mock answer, whatever the prompt says |
| Prompts.Owned | server/server.js:275 | the owner's prompts are stored prompts with that owner |
| Prompts.OwnedComplete | server/server.js:275 | every stored prompt of the owner's is among them |
| Prompts.OwnedInCreationOrder | server/server.js:275 | filtering by owner keeps the creation order |
| Prompts.Recent | server/server.js:276-277 | at most twenty, taken from the end, newest first when the input is in creation order |
| Prompts.RecentAreNewest | server/server.js:276-277 | every prompt left out is no newer than any prompt shown |
| Prompts.Store | server/server.js:249-264 | a successful submission appends one prompt, with a fresh id, the caller's id, the prompt text, one descriptor per file and the mock answer, and replies with its id; users are untouched |
| Prompts.Submit | server/server.js:231-270 | the gate's refusal is passed on; a multer rejection of the named parts gives 500 with the error page; a missing or empty prompt gives 500 "Server error processing prompt"; 201 exactly otherwise, storing the named parts; only a 201 writes |
| Prompts.History | server/server.js:273-284 | the gate's refusal is passed on; 201 exactly when admitted, listing only the caller's prompts, as many as `Shown` allows, and exactly `Recent(Owned(...))` of them; nothing is written |
| Prompts.HistoryNewest | server/server.js:276-277 | on a valid store the history is newest first and no prompt of the caller's left out is newer than one shown |
| ServerFlows.Handle | server/server.js:125-284 | every route answers one of 201, 400, 401, 403, 404 and 500, advances the clock by the elapsed time, and only appends to the stores; login, profile and history write nothing |
| ServerFlows.Run | server/server.js:125-284 | serving any sequence of requests only appends to the stores and never moves the clock back |
| ServerFlows.RegisterKeepsValid | server/server.js:125-167 | registration keeps ids and emails unique, emails normal and dates in order |
| ServerFlows.AddUserKeepsValid | server/server.js:139-145 | appending a fresh user with a normal, unstored email keeps the store invariant |
| ServerFlows.SubmitKeepsValid | server/server.js:231-270 | submission keeps the store invariant |
| ServerFlows.StoreKeepsValid | server/server.js:249-264 | storing a prompt keeps the store invariant |
| ServerFlows.AddPromptKeepsValid | server/server.js:249-264 | appending a prompt with a fresh id at the current time keeps the store invariant |
| ServerFlows.HandleKeepsValid | server/server.js:125-284 | every request keeps the store invariant |
| ServerFlows.RunKeepsValid | server/server.js:125-284 | any sequence of requests keeps the store invariant |
| ServerFlows.RegisterThenLogin | server/server.js:170-207 | after signing up, logging in with the same password succeeds and shows the user just stored |
| ServerFlows.FindAppended | server/server.js:175 | a user appended after no match is the one found by its email |
| ServerFlows.RegisterCreated | server/server.js:139-163 | a successful registration appends the user with the next id and returns the token issued to it |
| ServerFlows.TokenOpensProfile | server/server.js:210-224 | an issued token opens the profile of its user for 24 hours |
| ServerFlows.RegisterThenProfile | server/server.js:210-224 | the token a registration returns opens the profile of the user just stored |
| ServerFlows.NewcomerProfile | server/server.js:210-224 | a user appended with a fresh id opens its profile with its token |
| ServerFlows.FindIdAppended | server/server.js:212 | a user appended with an unused id is found by it |
| ServerFlows.DuplicateCaughtByIndex | server/server.js:130-166 | when the lookup compares emails as given (Mongoose before 5), a duplicate email written differently passes the pre-check and fails at the unique index with 500 |
| ServerFlows.DuplicateCaughtByPreCheck | server/server.js:130-133 | when the lookup applies `lowercase` and `trim` first (Mongoose 5 and later), every written form of a stored email gets 400 "User already exists" |
| ServerFlows.UnnormalizedNotStored | server/server.js:56-62 | no stored email is one that normalising would change |
| ServerFlows.ShortPasswordAccepted | server/server.js:63-67 | `minlength: 6` never refuses a short password, because it is checked on the hash |
| ServerFlows.OwnedAppended | server/server.js:275 | a prompt appended for its owner comes last among the owner's prompts |
| ServerFlows.HistoryAdmitted | server/server.js:273-284 | an admitted caller gets its recent prompts |
| ServerFlows.StoreAppends | server/server.js:249-264 | the stored prompt is the last one and belongs to the caller |
| ServerFlows.LastPromptShownFirst | server/server.js:276-277 | the caller's last stored prompt is shown first |
| ServerFlows.StoreThenHistory | server/server.js:231-284 | right after a successful submission the submitter's history starts with the new prompt |
| ServerFlows.NoSecretNoProtectedRoute | server/server.js:113-116 | with `JWT_SECRET` unset no protected route ever succeeds |
| ServerFlows.SingleFileRefused | server/server.js:33-38 | one named file the filter refuses sinks the submission with the error page for the filter's message |
| ServerFlows.UnnamedPartIgnored | server/server.js:234 | a part without a filename changes neither the reply nor the state |
| Tips.SplitNewlineRuns | src/components/TipsList.jsx:9 | the pieces between runs of line feeds: no piece holds a line feed, and only the first and last can be empty |
| Tips.RunsAsSingle | src/components/TipsList.jsx:9-11 | once blank lines are dropped, splitting on runs of line feeds is splitting on each line feed |
| Tips.NonBlankLines | src/components/TipsList.jsx:10-11 | the kept lines are trimmed and non-empty |
| Tips.NonBlankLinesAppend | src/components/TipsList.jsx:10-11 | dropping blank lines commutes with concatenation |
| Tips.StripMarker | src/components/TipsList.jsx:13 | removing the list marker leaves a suffix of the line |
| Tips.StripOneMarker | src/components/TipsList.jsx:13 | white space, one `-`, `*` or `<digits>.` marker and white space in front of a text are removed, and only they |
| Tips.NoMarkerKept | src/components/TipsList.jsx:13 | a line that starts with no marker keeps all of its text |
| Tips.TailAt | src/components/TipsList.jsx:14 | where the part after the title matches, a separator lies in between and the description has no line terminator |
| Tips.LazyGroupEnd | src/components/TipsList.jsx:14 | the lazy title group ends only where the rest of the pattern matches |
| Tips.LazyGroupEndFirst | src/components/TipsList.jsx:14 | the lazy title group ends at the first such position, and there is none when it fails |
| Tips.MatchTip | src/components/TipsList.jsx:14 | a match gives a non-empty title of title characters and a one-line description; the title is the text from after the leading stars up to the first end after which the rest of the pattern matches, and the description is the text from where that rest puts it; there is no match exactly when more than two stars lead or no end within the title class run lets the rest match; a line without separator never matches |
| Tips.EmDashSplitsFirst | src/components/TipsList.jsx:14 | in "A — B: C" the em dash ends the title, so the groups are "A" and "B: C" |
| Tips.ParseLine | src/components/TipsList.jsx:12-24 | on a match the tip is the two groups, trimmed; without a match it is the cleaned line, trimmed, as the title with an empty description; both fields come out trimmed, and a line without separator becomes a title alone |
| Tips.Parse | src/components/TipsList.jsx:7-25 | every tip's title and description are trimmed and on one line |
| Tips.ParseLineBreak | src/components/TipsList.jsx:8-11 | parsing two texts joined by a line feed is parsing each |
| Tips.ParseSingleLine | src/components/TipsList.jsx:8-12 | a text without line feed gives one tip when it is not blank, parsed from its trimmed form, and none when it is blank |
| Tips.NothingToParse | src/components/TipsList.jsx:7-11 | an empty answer yields no tips |
| Tips.Render | src/components/TipsList.jsx:31-33 | a tip's copied line starts with its title, and holds a line feed only when the title or the description does |
| Tips.Format | src/components/TipsList.jsx:30-34 | the copied text has one line per tip when no tip spans lines |
| Tips.MatchRendered | src/components/TipsList.jsx:14-19 | a copied `title: description` line matches the pattern with exactly those two groups |
| Tips.RenderParses | src/components/TipsList.jsx:30-34 | a printable tip's copied line parses back to that tip |
| Tips.RenderedLineParses | src/components/TipsList.jsx:12-32 | the one line a printable tip is copied as is parsed back to exactly that tip, with or without a description |
| Tips.ParseMatched | src/components/TipsList.jsx:13-20 | a line with no marker whose two groups are already trimmed parses to a tip holding exactly those groups |
| Tips.ParseUnmatched | src/components/TipsList.jsx:13-23 | a trimmed line with no marker and no separator parses to a tip whose title is the whole line and whose description is empty |
| Tips.FormatParses | src/components/TipsList.jsx:30-34 | the copied text of printable tips parses back to the same tips |
| JsText.Split | server/server.js:107 | `split` with a one-character separator gives at least one piece, none containing the separator |
| JsText.JoinSplit | src/components/TipsList.jsx:34 | joining the pieces of a split gives the text back |
| JsText.SplitJoin | src/components/TipsList.jsx:34 | splitting a join of separator-free pieces gives the pieces back |
| JsText.Join | src/components/TipsList.jsx:34 | no contract of its own: `join` puts the separator between consecutive pieces; `JsText.JoinSplit` and `JsText.SplitJoin` relate it to `split` |
| JsText.ToLower | server/server.js:35 | `toLowerCase` keeps the length, turns each ASCII capital and the Kelvin sign into its lower-case letter and keeps every other character; the result has none of those characters left |
| JsText.Trim | src/components/TipsList.jsx:10 | `trim` removes exactly the leading and trailing white space |
| AuthSession.Start | src/contexts/AuthContext.jsx:16-18 | no contract of its own: a freshly mounted provider has no user and is loading over the storage the browser kept |
| AuthSession.HasSavedUser | src/contexts/AuthContext.jsx:21-22 | no contract of its own: the mount effect's truthiness test on the saved user entry |
| AuthSession.Restore | src/contexts/AuthContext.jsx:20-26 | a saved user is parsed and becomes the user, and loading ends; a parse error escapes before loading ends; storage is only read |
| AuthSession.DatePart | src/contexts/AuthContext.jsx:35 | the demo join date is the ISO time up to its first `T` |
| AuthSession.IsDemo | src/contexts/AuthContext.jsx:30 | no contract of its own: the demo credentials, compared exactly |
| AuthSession.DemoUser | src/contexts/AuthContext.jsx:31-36 | the demo user has id "1", name "Demo User", the email given, and a join date that is the ISO time up to, and without, its `T` |
| AuthSession.AlertText | src/contexts/AuthContext.jsx:65-68 | the alerted text is the server's error, else the error message, else the fallback, never empty |
| AuthSession.Login | src/contexts/AuthContext.jsx:28-77 | the demo credentials store the demo user and touch neither the token nor the loading flag; a server success stores token and user; a failure alerts and changes neither user nor storage; off the demo path loading ends |
| AuthSession.DemoIgnoresServer | src/contexts/AuthContext.jsx:29-40 | the demo login's outcome does not depend on any answer from the server |
| AuthSession.Register | src/contexts/AuthContext.jsx:79-108 | success stores token and user; failure changes neither user nor storage; loading ends; nothing is alerted |
| AuthSession.Logout | src/contexts/AuthContext.jsx:110-114 | no user and neither storage entry afterwards; every other entry and the loading flag stay |
| AuthSession.ReloadRestores | src/contexts/AuthContext.jsx:20-26 | a reload over a persisted session brings the same user back |
| AuthSession.LoginPersists | src/contexts/AuthContext.jsx:28-77 | login keeps the stored user in step with the session's user |
| AuthSession.RegisterPersists | src/contexts/AuthContext.jsx:79-108 | registration keeps the stored user in step with the session's user |
| AuthSession.LogoutThenReload | src/contexts/AuthContext.jsx:110-114 | after logout a reload restores no user |
| AuthSession.LoginThenReload | src/contexts/AuthContext.jsx:37-54 | after a successful login a reload signs the same user in again, and the server's token stays stored |
| Theme.InitialTheme | src/contexts/ThemeContext.jsx:15-23 | the initial theme is "light" or "dark", and "dark" exactly when running in a browser with "dark" saved |
| Theme.Toggle | src/contexts/ThemeContext.jsx:35-37 | the toggle always gives a theme different from the previous value, "dark" exactly after "light" |
| Theme.ToggleTwice | src/contexts/ThemeContext.jsx:35-37 | toggling twice gives a theme back |
| Theme.Apply | src/contexts/ThemeContext.jsx:26-33 | the effect stores the theme and the root has the `dark` class exactly when the theme is "dark"; no other entry or class changes |
| Theme.Mount | src/contexts/ThemeContext.jsx:24-33 | after mounting, the page shows the initial theme |
| Theme.ToggleStep | src/contexts/ThemeContext.jsx:35-37 | after a toggle, the page shows the toggled theme |
| Theme.ToggleFlipsDarkClass | src/contexts/ThemeContext.jsx:26-37 | each toggle flips the `dark` class |
| Theme.ReloadKeepsTheme | src/contexts/ThemeContext.jsx:15-33 | a reload comes back with the theme the page shows, and leaves the page as it was |
| Theme.ToggleTwiceRestores | src/contexts/ThemeContext.jsx:26-37 | two toggles bring the page back to where it was |
| ToyLibraries.ToyLawful | server/server.js:4-6 | some bcrypt, jsonwebtoken and uuid implementations meet every assumption the proofs make about them |

## Left out

- I/O and the framework are not modelled: the MongoDB connection, `app.listen`, CORS, JSON body parsing, the static `/uploads` route, the health route, writing uploaded bytes to disk, the React rendering, `console` output and the clipboard write with its "copied" flag.
- Concurrency is not modelled: requests are served one after the other, and each asynchronous client call runs to completion.
- Accounts.Register: lower-cases through `JsText.ToLower`, which knows only the ASCII capitals and the Kelvin sign, while Mongoose's `lowercase` uses `toLowerCase`, which covers all of Unicode. A non-ASCII upper-case email such as "É@x.io" is stored as given, so its lower-case form is not seen as a duplicate.
- ServerState.NormalizeEmail: for the same reason "É@x.io" is normal in the model, where Mongoose stores "é@x.io"; the row's "no character `JsText.ToLower` changes" is not "no upper-case letter" outside ASCII.
- Uploads.RejectionAt: the filter lower-cases the extension through `JsText.ToLower` too. The Kelvin sign, the one character outside ASCII that `toLowerCase` turns into a single ASCII letter, is modelled (`Uploads.KelvinDockerAllowed`). Every other unmodelled mapping either stays outside ASCII or, for U+0130, gives "i" plus a combining dot, and no allowed extension holds an "i", so the verdict should agree with the source; that argument rests on the Unicode tables and is not proved here.
- Uploads.Received: `originalName` is the filename as busboy reports it, already cut to its last path component, with "." and ".." reported as empty (multer's default `preservePath: false`). That cut, made inside busboy, is not modelled: a client name "C:\\dir\\a.txt" or "x.txt/" has to be given to the model as busboy reduces it.
- Accounts.Register: request fields are always strings, so the 500 that bcrypt raises for a missing password, and the 500 for a field that is a JSON object (a query operator reaching `findOne`), do not arise.
- Accounts.Login: the catch-all 500 "Server error during login" (a database failure, a non-string field) does not arise, so its status is 201 or 400.
- Accounts.Profile: the catch-all 500 "Server error fetching profile" (a database failure, a malformed id) does not arise.
- Prompts.History: the catch-all 500 "Server error fetching prompts" does not arise.
- Prompts.History: MongoDB leaves the order of prompts with equal `createdAt` unspecified; the model fixes it to reverse insertion order.
- Prompts.Submit: the HTML error page is represented by the message of the error it shows. Outside production Express prints the error's stack on it, and in production only "Internal Server Error". Files written before a rejection or a failed save are not tracked.
- Prompts.Submit: every part is taken to come from the `files` field. A file under any other field name is refused by multer as "Unexpected field".
- AuthGate.NoSecretNoAccess: relies on `jwt.verify` refusing an undefined or empty key, as jsonwebtoken 9 does. Versions 8 and earlier accept an unsigned `alg: none` token when no key is given.
- JsNumber.ParseInt: returns the exact integer, while JavaScript returns a double that is rounded above 2^53. It also returns no `-0` or `Infinity`. Only `SALT_ROUNDS` is read this way.
- AuthSession.Restore: `JSON.parse` is a parameter. A saved text that parses to something other than a user object, such as `null`, is treated like a parse error.
- AuthSession.Login: the server's answer is an input, with the token and user it carries. A 2xx answer missing either field, which would store the text "undefined", is not modelled.
- Collaborators.Lawful: bcrypt, jsonwebtoken and uuid are known only through the stated facts. Hashing cost, the salt rounds passed to bcrypt, and token formats are not modelled.
- `useAuth` and `useTheme` throw outside their providers; those guards are not modelled.
