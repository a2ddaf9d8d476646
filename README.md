# Ephemeral paste store — a Dafny model

This project models the core of pastebin-lite, a small service that stores
text "pastes". A paste may carry a time-to-live and a maximum number of
views. It becomes unreadable for good once it expires or once its last
permitted view has been read, whichever comes first.

What is modelled:

- **The `pastes` table** (`PasteStore`). A paste is a record with content,
  `created_at`, an optional `expires_at` and an optional `views_left`. The
  table is a `map` from id to record, held in the class `Store`.
  - `Store.Create` is the INSERT.
  - `Store.Consume` is the atomic consume-or-reject UPDATE. It does the
    lookup, the eligibility test and the decrement in one method body.
  - `UpdateReturning` states what the SQL statement means over the whole
    table. `Store.Consume` is proved equal to it.
- **The create handlers** (`CreateRules`, `Server.CreatePaste`,
  `ApiPastes.Handler`).
  - The request body is a small JSON datatype. It tells an absent key apart
    from `null`, integers, non-integer numbers, strings and the rest.
  - The three guards run in order. Each one's 400 message is modelled.
  - The handler then computes `expires_at` in milliseconds, inserts the
    record and builds the paste URL.
  - The serverless handler adds a 405 guard for any method other than POST.
    It also defaults the protocol to `"http"`.
- **The read route** (`Server.GetPaste`). It picks the instant with
  `getCurrentTime`, runs the consume, and answers 200 with the content, the
  views left after this read and the expiry. Otherwise it answers one
  uniform 404.
- **The clock selector** (`Clock.GetCurrentTime`). It trusts the
  `x-test-now-ms` header only when `TEST_MODE` is exactly `"1"` and the
  header parses as an integer.
  - `parseInt(s, 10)` is modelled concretely (`JsNumbers.ParseInt`): leading
    white space, an optional sign, then the longest run of decimal digits.
  - It is proved to read back the decimal rendering of every integer.

Inputs the code reads from its environment are parameters:

- the generated id (`nanoid(10)`);
- the creation instant (`new Date()`);
- the real clock;
- `process.env.TEST_MODE`;
- the request headers;
- whether the database can be reached.

A failed database call gives the 500 "Internal Server Error" reply and
changes nothing.

Three facts about the code shape the model:

- The expiry is `created_at + ttl_seconds * 1000` milliseconds.
- A reused id is not retried: the INSERT fails on the primary key and the
  handler answers 500.
- Validation runs inside each handler.

`Scenarios` is a client of the routes. From the contracts alone it shows
these runs:

- a one-view paste read once, then refused;
- a ten-second TTL: readable at 5 s, gone at 10 s and 11 s;
- the test clock overriding the real one;
- a paste with no limits read repeatedly;
- the guards' order, and an explicit `null` rejected as a TTL.

## Model

| member | source | states |
|---|---|---|
| JsText.Trim | server/index.js:37 | `content.trim()` is empty exactly when every character is ECMAScript white space or a line terminator; a non-empty result starts and ends with a non-space |
| JsText.TrimStartAfterPadding | api/_utils/time.js:14 | `parseInt` skipping leading white space: any all-white-space prefix in front of a non-space character is removed and nothing else |
| JsNumbers.ParseInt | api/_utils/time.js:14 | `parseInt(s, 10)`: an empty string or one of white space only gives NaN; a plain digit string reads as its decimal value |
| JsNumbers.ParseSigned | api/_utils/time.js:14-15 | after the white space, NaN (the `isNaN` case) exactly when no digit follows the optional `+` or `-`; a leading `-` gives a value <= 0 and anything else a value >= 0; a plain digit string reads as its value |
| JsNumbers.NatDecimalValue | api/_utils/time.js:14 | reading the digits of a natural number's decimal rendering gives that number back |
| JsNumbers.ParseIntOfDecimal | api/_utils/time.js:14-15 | `parseInt(pad + String(n) + rest, 10)` is `n` (never NaN) for every integer `n`, any white-space padding, and any suffix that does not start with a digit |
| Clock.GetCurrentTime | api/_utils/time.js:9-21 | the result is always the real time or the instant the header parses to; TEST_MODE other than "1" gives real time; a missing or empty header gives real time; in test mode a header that parses gives exactly that instant; a header that is NaN falls back to real time |
| Clock.ForcedInstant | api/_utils/time.js:13-16 | in test mode a header holding the decimal rendering of an instant yields exactly that instant, whatever the real clock says |
| CreateRules.RejectsContent | server/index.js:37-41 | the guard (content falsy, not of type string, or empty after `trim`) rejects exactly the values that are not strings with a non-white-space character |
| CreateRules.RejectsOptionalPositive | server/index.js:42-57 | the `ttl_seconds` and `max_views` guard rejects exactly the values that are present but not an integer of at least 1, so an explicit null, a numeric string, a fraction and 0 all fail |
| CreateRules.Validate | server/index.js:36-57 | accepted iff content has a non-space character and each of `ttl_seconds`, `max_views` is absent or an integer >= 1 (so an explicit null or a numeric string fails); the first failing guard in the order content, ttl, max_views decides the error; accepted values carry the content and the given fields unchanged |
| CreateRules.ExpiresAt | server/index.js:61-65 | no TTL means no expiry; with a TTL the expiry lies at least one second after creation, and its distance from creation is a whole number of seconds equal to the TTL |
| CreateRules.SelectProtocol | server/index.js:77 | a present, non-empty `x-forwarded-proto` header is the protocol; a missing or empty one gives the fallback (`req.protocol`, or "http" in the serverless handler); a non-empty fallback never yields an empty protocol |
| CreateRules.HostText | server/index.js:78-79 | the `host` header as it prints in the template literal: its value when present, "undefined" when missing, so the text is empty only for an empty header |
| CreateRules.PasteUrl | server/index.js:79 | the URL is the protocol, then "://", then the host, and ends in "/p/" followed by the id, with nothing else in it |
| CreateRules.PasteUrlNamesId | api/pastes/index.js:60-62 | the URL `protocol://host/p/id` ends in a path segment that is the id, for every protocol and host, when the id holds no '/' |
| PasteStore.NewPaste | server/index.js:59-73 | the stored record has the content, `created_at`, `views_left = max_views` or null, and expires exactly `ttl_seconds * 1000` ms after creation (never without a TTL); it is well formed and readable at its creation instant |
| PasteStore.Live | server/index.js:102-103 | the WHERE clause apart from the id: a record readable now was unexpired at every earlier instant; a counter at 0 or an instant at or past the expiry makes it unreadable; a record with neither limit is always readable |
| PasteStore.Decremented | server/index.js:97-100 | the SET clause: a non-null `views_left` drops by exactly one, a null one stays null, and the content, `created_at` and `expires_at` are unchanged |
| PasteStore.UpdateReturning | server/index.js:95-105 | the statement returns a row iff the id exists, `expires_at` is null or later than now, and `views_left` is null or positive; with no row the table is unchanged; with a row only that record changes, its non-null counter drops by exactly one and the returned row is the post-update record; counters never go negative; the set of ids never changes |
| PasteStore.Store.Create | server/index.js:67-74 | inserts exactly the new record when the id is unused; an id already present makes the INSERT fail and leaves the table unchanged; the store invariant (counters >= 0, expiry >= creation + 1 s) is kept |
| PasteStore.Store.Consume | server/index.js:94-107 | the single-row lookup, test and decrement in one step equals the table-wide UPDATE ... WHERE ... RETURNING, and keeps the store invariant |
| ConsumeProperties.ExactlyFirstNSucceed | server/index.js:95-111 | for a record with `views_left = n` read before expiry, call i succeeds iff i < n, and the i-th success reports n - 1 - i remaining views |
| ConsumeProperties.ViewsAfterCalls | server/index.js:97-103 | after k such calls the counter is max(n - k, 0); the content, the expiry and every other record are unchanged |
| ConsumeProperties.OneViewOneReader | server/index.js:94-105 | of any K >= 1 calls on a single-view paste, the first succeeds and all others fail |
| ConsumeProperties.UnlimitedWhileNotExpired | server/index.js:97-103 | a record with null `views_left` is read successfully at every instant before its expiry (at all instants if it has none), always reporting null remaining views, and is never changed |
| ConsumeProperties.DeadStaysDead | server/index.js:101-103 | a record unavailable at some instant (expired or out of views) fails at that instant and every later one, and is never changed again |
| ConsumeProperties.MissingIdNeverChanges | server/index.js:101 | consuming an id that is not stored fails every time and never changes the table |
| ConsumeProperties.ExpiryIsExclusive | server/index.js:102 | a record expiring at e is readable at e - 1 and not at e |
| Server.ConsumeResponse | server/index.js:109-118 | the reply to the UPDATE's result is 200 or 404; it is 404 exactly when no row came back, and then it is the fixed "Paste not found or unavailable" reply; otherwise the body holds the returned row's content, `views_left` and `expires_at` |
| Server.UniformNotFound | server/index.js:109-118 | a missing id, an expired paste and an exhausted one all get the identical 404 "Paste not found or unavailable"; a live one gets 200 with its content, the post-decrement view count and its expiry |
| Server.CreatePaste | server/index.js:33-86 | invalid input gives 400 with the first failing guard's message and stores nothing; a failed INSERT (database down or id taken) gives 500 and stores nothing; otherwise exactly one new record is stored and the reply is 201 with the id and `protocol://host/p/id` |
| Server.GetPaste | server/index.js:89-122 | the instant comes from `getCurrentTime`; a live record is decremented and returned with 200; otherwise the same 404 and no change; a database failure gives 500 and no change |
| ApiPastes.Handler | api/pastes/index.js:5-72 | any method other than POST gives 405 before the body is examined, with nothing stored; otherwise the create route runs with "http" as the protocol when `x-forwarded-proto` is missing or empty |

## Left out

- Floating point: `ttl_seconds * 1000`, the `Date` object and `parseInt` of very long digit strings are mathematical integers here. The model does not capture rounding beyond 2^53 or the `Invalid Date` that results past ±8.64e15 ms.
- JSON parsing and the JSON encoding of replies: the body arrives already parsed, with one value per field. `expires_at` is returned as milliseconds rather than as the ISO timestamp string that the reply serialises.
- Id generation: `nanoid(10)` is a parameter. The table schema is not part of this model. The id is taken to be the primary key, so a reused id makes the INSERT fail.
- Concurrency and the database engine: each consume is one sequential, atomic method. `ConsumeProperties.Run` describes a sequence of consume calls on one id. Calls on other ids and INSERTs leave that record untouched, because `UpdateReturning` changes only the entry of its own id and `Store.Create` changes the table only when the id is new. Treating concurrent callers as such a sequence rests on the row-level atomicity of the UPDATE, which is not modelled.
- Connection pools, the health check, error logging, static file serving, the catch-all route and `app.listen`: these are I/O plumbing. A database failure is modelled only as the `reachable` flag that yields the 500 reply.
- server/utils/time.js is not part of this model. It is taken to behave like api/_utils/time.js.
- api/pastes/[id].js, the serverless read handler, is not part of the modelled core. Its consume statement is the same as the server route's.
- Headers are modelled as single strings. The repeated-header array form is not modelled.
- Strings are sequences of Unicode scalar values, not UTF-16 code units. Every white-space character involved lies in the Basic Multilingual Plane, so `trim` and `parseInt` behave the same.
