# QR attendance checkpoint — a Dafny model

The system is a small Flask server for taking attendance with QR codes.
The server issues a random one-time token with a two-minute lifetime on
each call of `generate_qr`, and answers it as a QR code of a submission
URL. A student scans the code and posts first name, last name, student id
and the token to `mark_attendance`. The server keeps two process-wide
stores:

- the **token registry**: a dict from token to its expiry time;
- the **attendance ledger**: `attendance.csv`, one row per accepted
  submission, below a header row when `ensure_csv` has written one (see
  Findings for the case where it has not).

`mark_attendance` always decides in the same order:

1. evict expired tokens;
2. read and trim the four fields, and answer 400 if any is blank; a body
   that is truthy but not a dict, or a field that is truthy but not a
   string, raises `AttributeError`, which Flask answers with a 500;
3. check and consume the token, and answer 400 if it is unknown or expired;
4. answer 409 if the student already has a row today (the token is burned by then);
5. otherwise append the row and answer 200.

The project has one module per concern:

- `Text`: Python's `str.isspace`, `strip` and `startswith`.
- `Clock`: civil dates and times, and `strftime` for the two formats the
  server uses. It proves that `%Y-%m-%d` can be read back, so the
  duplicate check's prefix test is exact.
- `Tokens`: the registry. The pure functions `Unexpired` and `Redeem`
  specify it, and the class `TokenRegistry` has the map as a field and
  methods that update it in place.
- `Ledger`: the rows. The predicate `HasToday` specifies the search, and
  the class `AttendanceLedger` has the row sequence as a field.
- `Requests`: the JSON body, Python truthiness and the reading of the four
  fields.
- `Checkpoint`: the two endpoints. `Issue`, `Decide` and `Mark` give them as
  functions on the state. The class `Server` composes the two stores, and
  its methods are proved equal to those functions. Lemmas over request
  sequences state the token lifetime and at-most-once acceptance.
- `CsvLedger`: the ledger as the CSV file that `csv.DictReader` reads back.
  It is needed for the finding below.

Model choices:

- The token-registry clock is an integer count of seconds (`now`), so the
  lifetime is 120.
- The wall clock is a `Clock.DateTime`, one reading per request.
- The random token is a parameter of `generate_qr`.

Points where a reader might expect other behaviour, modelled as the code
does it:

- A reader might expect a token to fail at exactly T + 120 s. The code
  tests expiry with a strict `now > exp`, so a token is still accepted at
  exactly its issue time plus 120 s and fails only strictly after that.
- A reader might expect a four-column export. The CSV header has five
  columns; the fifth is "QR Token".
- A reader might expect the same-day check and the append to be one
  atomic step. They are not under one lock in the code. Each request here
  is one atomic step, which is what a single-threaded server does.
- A token is accepted at most once until the same token string is issued
  again. A second `token_hex` draw can collide with a live token and
  overwrite its expiry.

## Model

| member | source | states |
|---|---|---|
| Text.Strip | app.py:103-106 | `strip()` leaves no whitespace at either end, and gives "" exactly when the value is all whitespace |
| Text.StripCutsBlankEnds | app.py:103-106 | `strip()` removes a whitespace prefix and a whitespace suffix and keeps the infix between them |
| Text.StripIdempotent | app.py:103-106 | stripping twice is stripping once |
| Text.StartsWith | app.py:47 | defines `str.startswith`: the prefix is no longer than the string and equals its first characters; `Clock.StampOnDay` proves what the test means for saved timestamps |
| Clock.FormatDate | app.py:39 | `%Y-%m-%d` prints ten characters with dashes at positions 4 and 7 |
| Clock.FormatDateTime | app.py:34 | `%Y-%m-%d %H:%M:%S` prints 19 characters and starts with the day's `%Y-%m-%d` |
| Clock.ParseFormatDate | app.py:39 | `%Y-%m-%d` is read back into the same date, so the format is unambiguous |
| Clock.FormatDateInjective | app.py:39 | two different dates never print the same `today_str` |
| Clock.StampOnDay | app.py:47 | a saved timestamp starts with a day's date string exactly when it was taken on that day |
| Tokens.Unexpired | app.py:51-59 | eviction keeps exactly the entries with `now <= exp`, adds no key and changes no expiry; an entry expiring at `now` survives |
| Tokens.TokenRegistry.CleanupExpired | app.py:51-59 | the collect-then-pop loops leave the map equal to `Unexpired` of the old map |
| Tokens.TokenRegistry.constructor | app.py:13 | the registry starts empty |
| Tokens.TokenRegistry.Store | app.py:83-84 | sets one key to its expiry, overwriting a colliding key, and changes nothing else |
| Tokens.Redeem | app.py:113-118 | accepted exactly when the token is present and `now <= expiry`; an accepted token is removed and no other entry changes; a refusal changes nothing |
| Tokens.TokenRegistry.Consume | app.py:113-118 | the locked check-then-pop does exactly what `Redeem` specifies |
| Tokens.RedeemTwiceFails | app.py:117-118 | once a token is accepted, a later attempt with it fails at any time |
| Tokens.EvictionKeepsLive | app.py:100-115 | evicting first never turns an acceptable token into a refused one, or the reverse |
| Ledger.NewRow | app.py:27-36 | the saved row's timestamp lies on the stamp's date and on no other date |
| Ledger.HasToday | app.py:38-49 | defines the duplicate check: some row has the student id and a timestamp starting with today's `%Y-%m-%d`; `Ledger.AttendanceLedger.HasTodayAttendance` is proved equal to it and `CsvLedger.FileOfHasToday` ties it to the CSV file |
| Ledger.AttendanceLedger.constructor | app.py:40-41 | a missing file is an empty ledger |
| Ledger.AttendanceLedger.SaveAttendance | app.py:27-36 | appends exactly one row holding the fields, the formatted time and the token, and keeps every earlier row |
| Ledger.AttendanceLedger.HasTodayAttendance | app.py:38-49 | the scan answers true exactly when some row has the student id and a timestamp starting with today's date |
| Ledger.AppendKeepsNoDuplicates | app.py:120-124 | appending only after a negative same-day check keeps every student at one row per day |
| Requests.RequestData | app.py:102 | a body that is not JSON, or is falsy, reads as `{}`; a truthy body that is not a dict faults on `.get` |
| Requests.FieldText | app.py:103-106 | a field faults exactly when it is truthy and not a string; otherwise it reads as its stripped string, which is "" exactly when the field is missing, falsy or whitespace |
| Requests.ReadForm | app.py:102-106 | defines the reading of the body, then first_name, last_name, student_id and token in that order, where the first fault aborts; `Requests.ReadFormFields` states its result |
| Requests.Complete | app.py:109 | defines `all([first_name, last_name, student_id, token])` on the trimmed values: all four are non-empty; `Requests.ReadFormBlankIff` ties it to the body's fields |
| Requests.ReadFormFields | app.py:102-106 | the body reads without a fault exactly when each of the four fields does, and the form then holds the four trimmed values |
| Requests.FieldTextTrimmed | app.py:103-106 | a value read from the body carries no surrounding whitespace |
| Requests.ReadFormBlankIff | app.py:109-110 | `all([...])` fails exactly when one of the four fields is missing, falsy or whitespace only |
| Checkpoint.Issue | app.py:79-84 | after issuing, the new token expires at `now + 120`; every other key is present exactly when it was live, with its expiry unchanged; the ledger is untouched |
| Checkpoint.Decide | app.py:100-125 | defines `mark_attendance` once the body is read: after eviction, a fault is a 500, a blank field a 400, a token that is not live a 400, a same-day row a 409 with the token burned, and otherwise the append and a 200; the lemmas `Checkpoint.UnreadableBodyFails` to `Checkpoint.DecideRows` state each outcome |
| Checkpoint.Mark | app.py:99-125 | defines `mark_attendance` as one step: `Checkpoint.Decide` applied to the read body; `Checkpoint.Server.MarkAttendance` is proved equal to it and `Checkpoint.MarkKeepsNoDuplicates` states the invariant it keeps |
| Checkpoint.Server.constructor | app.py:13-17 | the server starts with no tokens and, for an absent `attendance.csv`, no rows |
| Checkpoint.Server.GenerateQr | app.py:78-96 | the eviction then the store leave the state equal to `Issue`; the answer is the QR code of that token |
| Checkpoint.Server.MarkAttendance | app.py:99-125 | the new state and the response are exactly those of `Mark` on the old state |
| Checkpoint.UnreadableBodyFails | app.py:100-106 | a body that faults while being read is a 500 after eviction; no token is consumed and no row is written |
| Checkpoint.BlankFieldRejected | app.py:102-110 | any blank field is the 400 "Missing required fields"; only eviction has changed the registry and the ledger is unchanged |
| Checkpoint.InvalidTokenRejected | app.py:112-116 | a complete form whose token is not live is the 400 "Invalid or expired token"; only eviction has run |
| Checkpoint.DuplicateBurnsToken | app.py:117-122 | a complete form with a live token for a student already recorded today is a 409; the ledger is unchanged and the token is gone |
| Checkpoint.SubmissionRecorded | app.py:124-125 | otherwise the answer is the 200 message; the token is removed and exactly one row with the trimmed fields is appended, after which the student has a row today |
| Checkpoint.DecideTokens | app.py:99-125 | the registry changes only by eviction, plus the removal of the presented token exactly when it was accepted (200 or 409), and it was live then |
| Checkpoint.DecideRows | app.py:99-125 | every answer is 200, 400, 409 or 500; a 500 happens exactly on a read fault; the ledger grows by one row at its end on a 200 and is unchanged otherwise |
| Checkpoint.MarkKeepsNoDuplicates | app.py:120-124 | serving `mark_attendance` keeps at most one row per student per day |
| Checkpoint.LateRedemptionsFail | app.py:113-116 | while a token is not reissued, every request presenting it strictly after its expiry is refused with 400 |
| Checkpoint.IssuedTokenExpires | app.py:81-84 | a token issued at T and not reissued fails every redemption strictly after T + 120 s |
| Checkpoint.AcceptedAtMostOnce | app.py:117-118 | over any sequence of requests without reissue, a token is accepted at most once, and never if it was not in the registry |
| CsvLedger.EnsureCsv | app.py:20-25 | a missing or empty file becomes exactly the header alone, the file of the empty ledger; a non-empty file is left as it is |
| CsvLedger.AppendRecord | app.py:28-36 | defines opening in mode "a": a missing file is created, and one record is added after the existing ones; `CsvLedger.AppendToLedgerFile` states its effect on the ledger's file |
| CsvLedger.AppendToLedgerFile | app.py:28-36 | appending a saved row's record in mode "a" to the ledger's file gives the ledger's file with that row at its end |
| CsvLedger.LastIndexOf | app.py:43-45 | finds the last position of a field name, which is the one `DictReader` keeps for a repeated name |
| CsvLedger.FileHasToday | app.py:38-49 | defines `has_today_attendance` on the file: `DictReader` takes the first record as field names, and some later record has the student id under "Student ID" and a "Timestamp" starting with today's date; `CsvLedger.FileOfHasToday` and `CsvLedger.HeaderlessFileNeverFinds` state what it finds |
| CsvLedger.SaveAsWritten | app.py:27-36 | defines `save_attendance` as written: the row's record is appended in mode "a" to whatever file there is, with no header written first; `CsvLedger.HeaderlessFileMissesDuplicate` shows the consequence |
| CsvLedger.SaveWithHeader | app.py:20-36 | defines the corrected save: `ensure_csv` first, then the append; `CsvLedger.SaveWithHeaderAppends` proves the file stays the header followed by the ledger's rows |
| CsvLedger.FileOfHasToday | app.py:38-49 | on a file with the header, the file-level duplicate check is exactly the ledger's `HasToday` |
| CsvLedger.SaveWithHeaderAppends | app.py:20-36 | with the header ensured, saving into a missing, empty or ledger file keeps the file equal to the header followed by the ledger's rows |
| CsvLedger.HeaderlessFileMissesDuplicate | app.py:27-49 | without `ensure_csv`, the first saved row is read back as the header and the same student's same-day row is not found |
| CsvLedger.HeaderlessFileNeverFinds | app.py:43-45 | once a data row is the header, no later row is ever found unless that first row contains the string "Student ID" |

## Left out

- Static pages and the download route (app.py:61-75, 127-130) are Flask plumbing. They are not modelled.
- Building the QR image and the submission URL from `request.host_url` (app.py:86-96) happens in a foreign library. Issuing answers `QrCode(token)` instead.
- `secrets.token_hex(4)` (app.py:81) is randomness. The token is a parameter.
- `threading.Lock` (app.py:14, 54, 83, 113) is left out. Each request is one atomic step, so the race between the same-day check and the append (they are not under one lock in the code) is not modelled.
- `datetime.now()` / `date.today()` become parameters: `now` in whole seconds for the registry, `wall` for the timestamp. The code reads the clock several times per request; the model reads it once. Each token expiry is a whole number of seconds, and at microsecond resolution the statements are the same with the lifetime scaled.
- Clock.DateTime: years are limited to 1000..9999, so `%Y` prints four digits. Microseconds are not printed by the format, so they are not modelled.
- CSV quoting, line endings and UTF-8 encoding are not modelled. A record is its list of decoded fields. Only the file's header effect is modelled.
- A CSV row shorter than the header makes `DictReader` fill the missing fields with `None`. If such a row has a matching "Student ID" but no timestamp, `.get("Timestamp", "")` returns `None` and `ts.startswith` raises `AttributeError`. In the code that is a 500, and the token has already been burned. The model treats such a row as no match instead. Rows the server itself writes always have all five fields.
- `app.run` and the `PORT` variable (app.py:132-135) are startup plumbing. The consequence of `ensure_csv` running only there is modelled under Findings.
- Tokens.TokenRegistry.constructor, Ledger.AttendanceLedger.constructor, Checkpoint.Server.constructor: the classes start only from an empty registry and an absent `attendance.csv`. A file kept from an earlier run is not loaded by them. The lemmas over `Checkpoint.Mark` and `Checkpoint.Issue` take any `Checkpoint.State`, so they cover a ledger with earlier rows.
- Clearing and counting the ledger have no code in `app.py`, so nothing is modelled for them.
- Requests.Json: JSON numbers are integers. A float has the same truthiness, which is all the handler uses.
- Checkpoint.Server.MarkAttendance: its own `ensures` does not state that the ledger stays free of same-day duplicates. Checkpoint.MarkKeepsNoDuplicates states it for `Mark`, which the method is proved equal to.

## Findings

| source | as written | input that shows it | evidently intended | confidence | as-written member | corrected member |
|---|---|---|---|---|---|---|
| app.py:132-133 | `ensure_csv` is called only under `__main__` and on download; `save_attendance` opens the file in append mode, so on a server started any other way (a WSGI server, `flask run`, or after the file is deleted) the first saved row is written where the header belongs | no `attendance.csv`; student S1 submits with valid token "0a1b2c3d" and then, the same day, with a second valid token: the file holds one record, which `DictReader` takes as field names, so it yields no row and the second submission is also a 200; from the third submission on, rows are yielded but `row.get("Student ID")` is None unless the first row contains "Student ID" | the header is in place before the first row, so the second submission is a 409 | medium, not executed | CsvLedger.HeaderlessFileMissesDuplicate | CsvLedger.SaveWithHeaderAppends |

`CsvLedger.SaveAsWritten` is the save as written, and `CsvLedger.HeaderlessFileNeverFinds` shows the check stays broken for later rows. `CsvLedger.SaveWithHeader` is the corrected save. With it, `CsvLedger.FileOfHasToday` proves that the file-level check agrees with `Ledger.HasToday`, which the rest of the model uses.
