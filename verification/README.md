# Model of an analytics server

This project models the stateful core of OXI Metric, a server that ingests app events over HTTP and shows
aggregates on a console, and proves what its requests keep over whole runs.

| files | what they model |
|---|---|
| `Encoding.dfy`, `Schema.dfy`, `Refusals.dfy`, `Store.dfy` | the texts a driver can store; the six ingestion tables with their keys, checks and delete actions; which statements are refused; the store whose methods change them in place |
| `Tracking.dfy`, `TrackLaws.dfy`, `DriverLaws.dfy`, `Firsts.dfy` | the `Track`, `Device` and `Identify` handlers; closed form, retries and batching of `Track`; where the drivers store different rows |
| `Effects.dfy`, `Runs.dfy`, `PropertyRuns.dfy`, `LateWrites.dfy`, `Attribution.dfy` | any number of requests interleaved statement by statement with administration and cleanup |
| `Retention.dfy` | the retention job |
| `RateLimit.dfy`, `Totp.dfy` | the token bucket and the tracker of failed second factors |
| `Text.dfy`, `OriginCodec.dfy`, `OriginUrl.dfy`, `UrlGrammar.dfy`, `Origins.dfy`, `OriginMatch.dfy`, `TokenGate.dfy` | the allow-list of a token from the request that sets it to the gate that enforces it |
| `Projects.dfy`, `Console.dfy`, `Auth.dfy`, `RowWriters.dfy`, `TokenLife.dfy` | the handlers that read a whole row, edit the copy and write it back without a lock; login; what their runs mean for the gate |
| `Calendar.dfy`, `Labels.dfy`, `Series.dfy`, `Analytics.dfy`, `Ingested.dfy` | the aggregate queries, the periods of the two database drivers, and what ingestion adds to the numbers |

`Options.dfy` and `Sets.dfy` hold what these share. `dafny verify dfyconfig.toml` checks everything.

## How the model is built

A method that changes state is a method of a class over the same fields, or takes the store it changes. It is
proved against a function on values: `Schema.With...` for a statement, `Tracking.TrackCall` for a request,
`Projects.EditedAlone` and `Console.EditedAlone` for an edit, `Totp.Recorded` and `RateLimit.Decide` for a
critical section. What the program promises is then proved about these functions, and what they write is stated a
second time column by column, with the limits and units of the program as numbers. Runs are sequences of states,
each the result of the previous one and a move.

What the program gets from outside is a parameter: every clock reading, the ids that the database gives to new
rows (fresh among live rows and nothing else), generated secrets, hashes and locations, whether a call meets a
transient database error (`fails`), whether the driver can store a timestamp text (`storable`; Postgres refuses a
malformed one), and what the RFC 3339 parser makes of a text (`instant`). The two drivers run statements of the same
relational meaning, so one `Store` stands for both. They differ in the texts they can store: SQLite stores any bytes,
Postgres refuses a zero byte and what is not UTF-8, which is modelled for every text that `Track` writes; for the other
statements a refused text is one of the errors that `fails` stands for. They also differ in the labels of a time
series, and both are modelled. Instants are integer nanoseconds. The limiters read the clock in the order of their
critical sections. A Go string is a sequence of bytes in `Tracking` and in the console handlers, where lengths are
compared, and a sequence of code points in the origin modules, where white space outside ASCII matters.

## What turned out false

Each of these is stated with its exact condition, or with a bound that is reached.

- The documentation of the program (its README.md:309) promises at most 5 second-factor attempts in 5 minutes. A
  window of the tracker records up to 4 + k failures when k logins are between check and record at once, and an
  interval of 5 minutes can meet two windows: the bound for one login string is 2(4 + k) - 1, that is 9 for sequential
  logins, and it is reached (`Totp.IntervalBound`, `Totp.IntervalBoundIsReached`). An account has two login strings,
  its name and its email, so its bound is twice that (`Auth.AccountBound`), and it is reached too.
- Property rows of an event can be wrong when the event is deleted between its insert and its property transaction
  and then inserted again: the late transaction adds its rows to whatever is stored. The rows stay right along every
  run that deletes no event with a transaction still due, if and only if each transaction that is due belongs to the
  event as it is stored, finds no rows and is the only one (`LateWrites.StaysSoundIff`). The deletion can be that of
  another project: a client may track on a device that another project registered, deleting that project deletes the
  device with its events, and when the device registers again and the client retries, both transactions write every
  row (`LateWrites.DeletionInBetweenDuplicates`).
- A text is cut at 4096 bytes, which can split a character. Postgres then refuses all property rows of the event, the
  error is not reported and the event is counted. For texts that both drivers take uncut, they store the same rows if
  and only if no text is cut inside a character or the rows are refused anyway (`DriverLaws.DriversStoreAlikeIff`,
  `DriverLaws.CutTextLosesRows`).
- A host may end in white space outside ASCII, which normalising a list again drops, and storing it too. Storing it
  changes what the gate permits, unless the list also asks for `*` (`Origins.NormalizeTwiceIff`,
  `TokenGate.GateAgreesIff`).
- A request that read a row before it was disabled, or before its second factor, secret, password or role was changed,
  undoes that when it writes. Each of these stays as it is along every run if and only if no such copy is in flight
  (`RowWriters.DisabledStaysIff`, `RowWriters.AspectStaysIff`). Setting up replaces the secret of a second factor that
  is already on and asks for no code, so an enabled secret need not be a confirmed one
  (`RowWriters.SetupReplacesSecret`).
- The documentation (its README.md:310) promises 1000 requests a minute for a token and 10 for a login. A full bucket
  at the beginning and the refill add up: a closed minute can admit twice the limit. The bound for every length, and a
  run that reaches it, are `RateLimit.AdmissionBound` and `RateLimit.AdmissionBoundIsReached`.
- The rate limiter moves its clock on rejected requests too, so a client whose bucket is empty is rejected for exactly
  as long as it retries faster than one token refills (`RateLimit.StarvesIff`); after an idle gap it is admitted
  (`RateLimit.IdleKeyIsAdmitted`).

## Model

| member | source | states |
|---|---|---|
| Schema.ApplyKeepsConsistent | internal/storage/migrations/sqlite/001_initial.sql:1-73 | no statement, whatever its arguments, breaks a foreign key, a UNIQUE key or a CHECK |
| Schema.ApplyKeepsUnique | internal/storage/migrations/sqlite/001_initial.sql:11-35 | token texts, and pairs of project and anonymous id, stay unique under every statement |
| Schema.ApplyKeepsBags | internal/storage/migrations/sqlite/001_initial.sql:63-73 | stored property types stay among the five that the CHECK allows |
| Schema.CascadeKeepsClosed | internal/storage/migrations/sqlite/001_initial.sql:8-73 | after the ON DELETE actions of a project delete every foreign key names a stored row |
| Schema.CascadeIsClosedPart | internal/storage/migrations/sqlite/001_initial.sql:8-73 | a project delete leaves a closed part of the database: rows missing, user links nulled, nothing else changed |
| Schema.CascadeIsLargest | internal/storage/migrations/sqlite/001_initial.sql:8-73 | every closed part of the database without the project lies below what the delete leaves |
| Schema.DeleteProjectIsGreatest | internal/storage/sqlite.go:157-160 | a database is the result of deleting project q if and only if it is the greatest referentially closed part without q |
| Refusals.RefusedIff | internal/storage/migrations/sqlite/001_initial.sql:1-73 | on a consistent database an insert, upsert or link does what it asks or nothing, and nothing exactly when the rows it asks for would break a reference, a UNIQUE key or a CHECK, or the driver cannot store its texts |
| Storage.Store.constructor | internal/storage/sqlite.go:22-35 | a new database is empty and consistent |
| Storage.Store.DeleteProject | internal/storage/sqlite.go:157-160 | the engine's actions, table by table in place, give the cascade |
| Storage.Store.CreateProjectToken | internal/storage/sqlite.go:181-195 | inserts the token with its origins encoded, unless the project is missing or the text is taken |
| Storage.Store.GetProjectTokenByToken | internal/storage/sqlite.go:197-208 | finds the row with this token text, origins decoded, exactly when there is one |
| Storage.Store.ListProjectTokens | internal/storage/sqlite.go:210-229 | lists exactly the tokens of the project, each once, in the order of their creation |
| Storage.Store.UpdateProjectToken | internal/storage/sqlite.go:231-237 | writes label, active, origins and time of disabling of the row with this id, if any; an unknown id still succeeds |
| Storage.Store.DeleteProjectToken | internal/storage/sqlite.go:239-242 | removes the row with this id, if any |
| Storage.Store.UpsertDevice | internal/storage/sqlite.go:246-258 | inserts an unknown device of a known project; a known device keeps project, user, platform and first sighting |
| Storage.Store.LinkDeviceToUser | internal/storage/sqlite.go:271-274 | links a known device to a known user; an unknown device is a silent success |
| Storage.Store.GetOrCreateAppUser | internal/storage/sqlite.go:278-306 | returns the id of the row for the pair, inserting it when there is none |
| Storage.Store.InsertEvent | internal/storage/sqlite.go:310-322 | inserts when the id is new, the foreign keys resolve and the driver can store the texts; it is ignored exactly when the texts can be stored and the id is taken, and fails otherwise |
| Storage.Store.InsertEventProperties | internal/storage/sqlite.go:324-345 | one transaction: all rows are written, or none when one of them is refused |
| Storage.Store.GetDeviceUserID | internal/storage/sqlite.go:347-354 | the linked user, and none for an unknown device |
| Storage.Store.CleanupEvents | internal/storage/sqlite.go:356-364 | deletes the project's events before the cutoff with their property rows, and returns their number |
| Storage.Store.GetProjectsWithRetention | internal/storage/sqlite.go:366-381 | lists each project with a positive retention once |
| Tracking.BuildProperty | internal/handler/tracking.go:175-207 | the value of the declared type goes into its own column when the JSON value fits, clipped or truncated |
| Tracking.BuildProperties | internal/handler/tracking.go:169-211 | in whatever order the map is visited, one row for each key that is short enough |
| Tracking.RowHasItsColumn | internal/handler/tracking.go:175-207 | a row has a value in the column of its declared type if and only if the JSON value fits it, and in no other; a text is cut to its first 4096 bytes, a number loses only its fraction |
| Tracking.RowsHaveDistinctKeys | internal/handler/tracking.go:169-211 | no two rows built for one event share a key |
| Tracking.TrackingHandler.Track | internal/handler/tracking.go:37-111 | rejects an empty device id and an empty or oversized batch untouched; otherwise store and answer are those of the loop over the batch |
| Tracking.TrackAdds | internal/handler/tracking.go:68-107 | whatever fails, every event that a call adds is an entry of the batch that passes the checks, with that entry's name and time stamp, the request's project, device, address, country and city (null exactly when empty), the clock reading, and the request's user or else the device's; its property rows are one for each key of at most 128 bytes, or none |
| Tracking.TrackingHandler.IngestEvent | internal/handler/tracking.go:75-107 | one round of the loop: checks, insert, property transaction, count |
| Tracking.TrackingHandler.Device | internal/handler/tracking.go:113-140 | succeeds only with the device stored, and changes nothing otherwise |
| Tracking.TrackingHandler.Identify | internal/handler/tracking.go:142-167 | answers with the id of the user row for the anonymous id and links the device; an error exactly when a call fails or there is neither a row nor a project for one, and a failed link leaves the user row |
| Tracking.IdentifiesLinks | internal/handler/tracking.go:155-166 | after an answer with user u a stored device has user u and its other columns as before; no other device changes, and a user row is added only when the pair had none |
| Attribution.IdentifiedThenTracked | internal/handler/tracking.go:68-72 | every event tracked next on that device without a user id has user u |
| Attribution.LinkStays | internal/storage/sqlite.go:271-274 | along every run a device keeps its user until it is linked again or it or the user is deleted |
| Attribution.IdentifiedIsAttributed | internal/handler/tracking.go:68-107 | in every interleaving, a request without a user id that looks the device up meanwhile gives every event that it inserts to u |
| TrackLaws.TrackGrows | internal/handler/tracking.go:74-110 | whatever fails, each counted event added one row and no stored row was rewritten |
| TrackLaws.TrackKeys | internal/handler/tracking.go:74-110 | whatever fails, only insertable ids of the batch are added |
| TrackLaws.TrackKeepsClosed | internal/handler/tracking.go:74-110 | whatever fails, foreign keys stay resolved |
| TrackLaws.TrackClosedForm | internal/handler/tracking.go:68-110 | without transient failures the loop stores the first candidate of each new id, with its rows when the driver can store them all, and accepted is the number of distinct insertable ids minus the stored ones, or 0 when a shared key or text is refused |
| TrackLaws.StoredIff | internal/handler/tracking.go:74-97 | without transient failures a new id is stored after the call if and only if project, device and user are known, the driver can store the shared texts, and some entry with this id has a name of 1 to 256 bytes, at most 50 properties and storable texts |
| TrackLaws.StoredBatchIsNoop | internal/storage/sqlite.go:310-322 | a batch whose insertable ids are all stored returns 0 and changes nothing, from any context and whatever fails |
| TrackLaws.RetryIsNoop | internal/handler/tracking.go:68-110 | sending a request again after a call without transient errors returns 0 and changes nothing |
| TrackLaws.FailedThenRetried | internal/handler/tracking.go:94-107 | a failed call and a good retry together accept each new event exactly once and store the same ids as one good call |
| TrackLaws.SplitBatch | internal/handler/tracking.go:68-110 | a batch a ++ b has the effect and the count of a followed by b |
| Encoding.CutIff | internal/handler/tracking.go:183-185 | a beginning of a UTF-8 text is UTF-8 if and only if the cut does not split a character |
| Encoding.Utf8Iff | internal/storage/postgres.go:277-313 | the texts taken for UTF-8 are exactly the encodings of sequences of code points without surrogates |
| Encoding.StorableIff | internal/storage/postgres.go:277-313 | and Postgres stores exactly those whose code points are not zero |
| DriverLaws.ClippedIff | internal/handler/tracking.go:183-185 | Postgres can store a clipped text if and only if the limit falls between two characters |
| DriverLaws.DriversStoreAlikeIff | internal/storage/postgres.go:292-313 | for texts that both drivers take uncut, both store the same rows for an event if and only if no text is cut inside a character or the rows are refused anyway; otherwise Postgres stores none |
| DriverLaws.CutTextLosesRows | internal/handler/tracking.go:98-107 | on Postgres such an event is counted and stored without rows, although nothing failed |
| Effects.EventCount | internal/storage/sqlite.go:356-364 | the number of events changes by what each statement says it inserted or deleted |
| Effects.EventsAreNotRewritten | internal/storage/sqlite.go:310-322 | no statement changes a stored event, except that its user link is nulled when the user row goes |
| Effects.RowsAreNotRewritten | internal/storage/sqlite.go:324-345 | no statement changes the property rows of a surviving event, except an insert for that event |
| Effects.DevicesAreNotMoved | internal/storage/sqlite.go:246-258 | no statement changes the project, platform or first sighting of a stored device |
| Effects.LinksStay | internal/storage/sqlite.go:271-274 | the user link of a device changes only by a link of that device, or is nulled when the user row goes |
| Effects.UsersStay | internal/storage/migrations/sqlite/001_initial.sql:30-36 | a user row stays unchanged until its project is deleted |
| Runs.MoveKeepsConsistent | internal/storage/migrations/sqlite/001_initial.sql:1-73 | each statement of an interleaved request keeps all constraints |
| Runs.RunKeepsConsistent | internal/storage/migrations/sqlite/001_initial.sql:1-73 | all constraints hold in every state of every run |
| Runs.RunConserves | internal/handler/tracking.go:74-110 | along every run, even with random failures: initial events plus events counted by `Track` equal final events plus events removed by cleanup and cascade |
| Runs.FirstWriteWins | internal/storage/postgres.go:277-290 | along every run a stored event never changes, but for its user link nulled after that user's row went |
| Runs.DevicesStay | internal/storage/sqlite.go:246-258 | along every run a device keeps project, platform and first sighting while it is stored, whichever project registers it again |
| Runs.RunKeepsGot | internal/storage/sqlite.go:278-306 | with select and insert as separate steps, every id that a call has returned since the last deletion of the project names the row of its pair |
| Runs.SameUserForAll | internal/storage/sqlite.go:278-306 | over any interleaving all calls for a pair that succeeded since the last deletion of the project returned the id of its only row |
| Runs.IdentifyAlone | internal/handler/tracking.go:155-166 | an undisturbed request of a run answers and writes what the `Identify` handler does |
| PropertyRuns.RunKeepsSane | internal/handler/tracking.go:94-107 | in every run, whatever is deleted, a pending property transaction belongs to an event that passed the checks, and a stored one was inserted in the run |
| PropertyRuns.RunKeepsCalm | internal/handler/tracking.go:98-107 | runs that delete no event with a transaction due keep the rows sound and every due transaction the only one for its event |
| PropertyRuns.RowsNoneOrExact | internal/handler/tracking.go:98-107 | unless an event is deleted between its insert and its property transaction, its rows are none or exactly those built for the one accepted request event, and (event_id, key) is unique |
| LateWrites.StaysSoundIff | internal/handler/tracking.go:98-107 | in a state of any run with sound rows, they stay sound along every run that deletes no event with a transaction due, if and only if each due transaction belongs to the event as stored, which has no rows yet, and is the only one |
| LateWrites.DeletedBreaks | internal/handler/tracking.go:98-107 | a transaction due for a deleted event gives its rows to any later event with that id |
| LateWrites.TwiceBreaks | internal/handler/tracking.go:98-107 | of two transactions due for one event the second writes the rows again |
| LateWrites.DeletionInBetweenDuplicates | internal/storage/migrations/sqlite/001_initial.sql:38-73 | such states arise from a state without requests: the deletion of the project that registered the device, between insert and transaction, a new registration and a retry store every row twice |
| LateWrites.CleanupInBetweenDuplicates | cmd/oximetric/main.go:176-182 | so does the retention job, whose cutoff lies a positive number of days before its reading, if the transaction is still due when its event is that old |
| PropertyRuns.AloneIsTrackOne | internal/handler/tracking.go:74-108 | one event of a batch, inserted and written without a step of others in between, has the effect of one round of the loop of `Track` |
| PropertyRuns.TrackAlone | internal/handler/tracking.go:68-110 | an undisturbed request of a run, from its lookup of the user to its answer, leaves the database and returns the count of the `Track` handler |
| Retention.RunRetentionCleanup | cmd/oximetric/main.go:170-187 | deletes project by project; a failed call skips its project, a failed listing does nothing |
| Retention.CleanupIsExact | cmd/oximetric/main.go:170-187 | when every call succeeds, exactly the events older than their project's positive retention go, with their rows, in whatever order projects are listed |
| Retention.RemovedIff | cmd/oximetric/main.go:176-182 | at any readings and whatever fails, an event goes if and only if the call for its project succeeds and it is older than that many days of 24 hours at its reading; its rows go with it and all else stays |
| Retention.CleanupComposes | cmd/oximetric/main.go:170-187 | a second run at the same time removes nothing; a later run removes at least what an earlier one would, and the two compose to the later one |
| Retention.FailedProjectsAreKept | cmd/oximetric/main.go:176-182 | a project whose call fails loses nothing |
| RateLimit.RateLimiter.constructor | internal/middleware/middleware.go:163-169 | a new limiter has no buckets |
| RateLimit.RateLimiter.Allow | internal/middleware/middleware.go:170-199 | one critical section: refill, cap, decide and move the clock of the key's bucket, and of no other |
| RateLimit.TokensInRange | internal/middleware/middleware.go:183-196 | tokens stay between 0 and the limit in every run |
| RateLimit.AdmissionBound | internal/middleware/middleware.go:177-196 | in every run at most rpm + floor(rpm * T) requests for one key are admitted in an interval of T minutes |
| RateLimit.AdmissionBoundIsReached | internal/middleware/middleware.go:177-196 | for every limit and every length of interval some run admits exactly that many |
| RateLimit.MinuteAdmitsTwice | internal/server/server.go:55-64 | a closed minute admits up to twice the limit, and never more |
| RateLimit.KeyedIsIndependent | internal/middleware/middleware.go:168-199 | the decisions for a key on an interleaved trace are those of one bucket on that key's requests |
| RateLimit.IdleKeyIsAdmitted | internal/middleware/middleware.go:177-196 | after an idle gap of k/rpm minutes, and for a new key, the next min(k, rpm) (for a new key rpm) requests are admitted whatever their spacing |
| RateLimit.EagerClientStarves | internal/middleware/middleware.go:182-192 | an empty bucket admits nothing while its client retries faster than one token refills |
| RateLimit.StarvesIff | internal/middleware/middleware.go:182-192 | an empty bucket admits nothing in a stretch of the run if and only if each request in it comes before one token has refilled since the one before |
| Totp.AttemptLimiter.constructor | internal/handler/auth.go:30-37 | a new tracker has no entries |
| Totp.AttemptLimiter.CheckLimit | internal/handler/auth.go:39-47 | allowed without a tracker, after its reset time, or below five failures |
| Totp.AttemptLimiter.RecordFailure | internal/handler/auth.go:49-58 | opens a window with one failure, or adds one to the open window and keeps its end |
| Totp.StepKeepsBudget | internal/handler/auth.go:39-58 | failures recorded and logins in flight share the budget of the window |
| Totp.WindowBound | internal/handler/auth.go:39-58 | with at most k logins between check and record, no window records more than 4 + k failures |
| Totp.IntervalBound | internal/handler/auth.go:91-102 | no closed interval of 300 seconds records more than 2(4 + k) - 1 failures |
| Totp.IntervalBoundIsReached | internal/handler/auth.go:91-102 | for every k from 1 and every set of login strings some run records exactly that many for each of them in one interval |
| Totp.BoundForAny | internal/handler/auth.go:91-102 | the tracker counts for each login string by itself, and the bound for several adds up |
| Auth.AccountBound | internal/handler/auth.go:69-102 | an account, with its name and its email, meets at most twice the failures of one login string in five minutes |
| Text.TrimIsTrimmed | internal/handler/handler.go:54 | trimming is idempotent |
| Text.SpacesAre | internal/handler/handler.go:54 | what is trimmed are the 25 code points with the property White_Space |
| Text.SplitAppend | internal/storage/sqlite.go:612 | splitting a text at a separator splits both sides of it |
| Text.Find | internal/handler/handler.go:113-115 | the first occurrence, or -1 when there is none |
| OriginCodec.EncodeOrigins | internal/storage/sqlite.go:594-606 | joins the trimmed nonblank entries |
| OriginCodec.DecodeOrigins | internal/storage/sqlite.go:608-624 | splits, trims and drops blanks |
| OriginCodec.DecodeEncode | internal/storage/sqlite.go:594-624 | for every list, what is read back is the concatenation of the decodings of its entries |
| OriginCodec.RoundTripIff | internal/storage/sqlite.go:594-624 | a list is read back unchanged if and only if its entries are nonblank, trimmed and free of newlines |
| OriginCodec.DecodeEncodeDecode | internal/storage/sqlite.go:594-624 | writing back what was read changes nothing that is read, for every text in the column |
| OriginUrl.ParseUrl | internal/handler/handler.go:71-77 | what is accepted has the scheme http or https and a host |
| UrlGrammar.ParseUrlIff | internal/handler/handler.go:71-77 | the parser accepts exactly the words of a grammar of web URLs (scheme in either case, user information, host, path, query, fragment), and reads off scheme and host |
| UrlGrammar.PlainEntryIff | internal/handler/handler.go:54-85 | an entry without "://*." is good if and only if it is such a word but for white space around it; its scheme in lower case and its host are kept |
| UrlGrammar.WildcardEntry | internal/handler/handler.go:66-85 | an entry with "://*." after its scheme is kept as scheme, star and domain, without path, query and fragment |
| UrlGrammar.EscapesIff | internal/handler/handler.go:71-74 | escapes are in order if and only if two hexadecimal digits follow every percent sign |
| UrlGrammar.PortIff | internal/handler/handler.go:71-74 | a port is in order if and only if only digits follow the last colon of the host |
| OriginUrl.ParseCanonical | internal/handler/handler.go:71-85 | scheme://host is parsed into that scheme and host |
| OriginUrl.TrimmedHostOk | internal/handler/handler.go:81 | a host without the white space at its end is a host, unless nothing is left |
| Origins.NormalizeOrigins | internal/handler/handler.go:50-93 | the loop with its set and list of results |
| Origins.RefusedForFirstBad | internal/handler/handler.go:71-77 | a list is accepted if and only if no entry is bad, and refused for its first bad entry |
| Origins.NormalizedMembers | internal/handler/handler.go:53-88 | the result holds exactly the canonical forms of the entries |
| Origins.NormalizedInOrder | internal/handler/handler.go:85-88 | the result is free of duplicates and in the order of first occurrence |
| Origins.CanonicalShape | internal/handler/handler.go:79-85 | every entry of the result but "*" is scheme://host with an accepted host |
| Origins.CanonicalAgain | internal/handler/handler.go:54-85 | a canonical origin is normalised to itself without the white space at its end |
| Origins.NormalizeTwiceIff | internal/handler/handler.go:50-93 | normalising an accepted list again changes nothing if and only if no host ends in white space |
| Origins.NormalizeTwiceFails | internal/handler/handler.go:54 | some accepted list is changed by normalising it again |
| OriginMatch.MatchOrigin | internal/handler/handler.go:98-126 | an empty list permits all; otherwise a nonempty origin needs a matching entry |
| OriginMatch.MatchOriginInGate | internal/middleware/middleware.go:104-128 | the second copy of the matcher decides alike on nonempty lists |
| OriginMatch.ScanAllowed | internal/middleware/middleware.go:108-127 | the loop common to both copies finds a matching entry if there is one |
| OriginMatch.PatternCovers | internal/handler/handler.go:112-123 | the pattern s://*.d matches exactly s://d and s://x.d, for every text x |
| OriginMatch.CanonicalCovers | internal/handler/handler.go:105-123 | a canonical entry without a wildcard matches exactly itself |
| OriginMatch.NormalizedPermits | internal/handler/handler.go:50-126 | an accepted list permits an origin if and only if all entries are blank, or the origin is not empty and some entry asks for it |
| TokenGate.TokenAuth | internal/middleware/middleware.go:49-79 | refuses missing, unknown and disabled tokens, forbids an origin that a nonempty list does not match, and passes the token's project otherwise |
| TokenGate.GateIff | internal/middleware/middleware.go:49-79 | a request passes with project p if and only if a row with its token text is active and of project p, and the list of the row is empty or an entry matches a nonempty origin; it is answered 401 if and only if no active row has its token text |
| TokenGate.ReadBack | internal/storage/sqlite.go:594-624 | a stored allow-list is read back entry by entry, without the white space at the end of an entry |
| TokenGate.GateAgreesIff | internal/middleware/middleware.go:66-71 | for every accepted list, the empty one included: the gate on the stored token decides about every origin as `MatchOrigin` on the normalised list, if and only if the list asks for "*" or no host ends in white space |
| TokenGate.CreatedTokenGate | internal/handler/projects.go:138-155 | so a created token passes exactly the origins that its request list permits |
| TokenGate.OtherEditsKeepOrigins | internal/handler/projects.go:207-277 | relabelling, disabling and enabling rewrite the origins column and change no decision about an origin |
| TokenLife.CreatedAdmits | internal/handler/projects.go:120-157 | a token that was just created passes an origin if and only if its request list has only blank entries or an entry asks for that origin |
| TokenLife.EditedAdmits | internal/handler/projects.go:159-277 | after disabling, every use of the token is answered 401; after enabling or relabelling its list decides as before; after a new list the new one does |
| TokenLife.RefusedStaysIff | internal/middleware/middleware.go:61-64 | along every run every use of a token is answered 401 until a request enables it, if and only if it is disabled and no copy in flight holds it enabled |
| Projects.ProjectsHandler.constructor | internal/handler/projects.go:19-21 | a handler works on its store |
| Projects.ProjectsHandler.FindToken | internal/handler/projects.go:217-233 | finds the token by id among those of the project only |
| Projects.ProjectsHandler.CreateToken | internal/handler/projects.go:120-157 | refuses a list that does not normalise; otherwise inserts an active token |
| Projects.ProjectsHandler.UpdateToken | internal/handler/projects.go:159-205 | sets label and origins of the row it read, and leaves `active` and the time of disabling |
| Projects.ProjectsHandler.DisableToken | internal/handler/projects.go:207-242 | sets inactive with the time of disabling on the row it read |
| Projects.ProjectsHandler.EnableToken | internal/handler/projects.go:244-277 | sets active without a time of disabling on the row it read |
| Projects.EditWrites | internal/handler/projects.go:159-277 | a successful edit writes the label and origins given, active and the time of disabling as requested, and no other column or row |
| Projects.EditAnswers | internal/handler/projects.go:159-277 | when an edit succeeds, finds no token, refuses the list or fails; only a success writes |
| Projects.CreateWrites | internal/handler/projects.go:138-155 | when a token is created, and that it is then active with the columns given; nothing is written otherwise |
| Console.ConsoleStore.constructor | internal/storage/sqlite.go:22-35 | a new table is empty |
| Console.ConsoleStore.CreateConsoleUser | internal/storage/sqlite.go:52-66 | inserts unless the name or email is taken or the role is not one of three |
| Console.ConsoleStore.GetConsoleUserByID | internal/storage/sqlite.go:68-77 | the row with this id, if any |
| Console.ConsoleStore.GetConsoleUserByLogin | internal/storage/sqlite.go:79-88 | some row with this name or email, exactly when there is one |
| Console.ConsoleStore.UpdateConsoleUser | internal/storage/sqlite.go:90-96 | rewrites the row with this id unless a constraint fails; an unknown id still succeeds |
| Console.ConsoleStore.DeleteConsoleUser | internal/storage/sqlite.go:98-101 | removes the row with this id, if any |
| Console.EditIsAuthorised | internal/handler/auth.go:129-259 | which edits change name, email, role, password and second factor, and which password or code each of these needs |
| Console.CanStoreIff | internal/storage/migrations/sqlite/001_initial.sql:19-28 | a console user is stored if and only if the table then meets its UNIQUE keys and its CHECK |
| Console.EditWrites | internal/handler/auth.go:129-259 | a successful edit writes each column that it is there to set, and no other column or row |
| Console.EditSucceedsIff | internal/handler/users.go:74-117 | an edit succeeds if and only if the row is found, the password and code that it needs are right, and the table then meets its constraints; only a success writes |
| Auth.AuthHandler.constructor | internal/handler/auth.go:30-37 | a handler works on its store and its tracker |
| Auth.AuthHandler.Login | internal/handler/auth.go:60-113 | the answer by row, password, code and tracker; a failure is recorded exactly for a wrong code |
| Auth.LoginAnswers | internal/handler/auth.go:80-113 | each answer to a login is given exactly in its case: success with the right password and, when the second factor is on with a secret, with a nonempty code that is valid and let through |
| Auth.ChangedPasswordLogsIn | internal/handler/auth.go:129-166 | after a change of the password exactly the new one logs in, with the second factor as before |
| Auth.FactorLifecycle | internal/handler/auth.go:168-259 | once a secret is set up and turned on a login needs a code for it, and once it is turned off the password is enough |
| Auth.AuthHandler.ChangePassword | internal/handler/auth.go:129-166 | needs eight characters and the current password |
| Auth.AuthHandler.TOTPSetup | internal/handler/auth.go:168-189 | stores a secret and leaves the second factor as it was |
| Auth.AuthHandler.TOTPEnable | internal/handler/auth.go:191-229 | needs the password, a stored secret and a code valid for it |
| Auth.AuthHandler.TOTPDisable | internal/handler/auth.go:231-259 | needs the password, and drops the secret too |
| Auth.UsersHandler.constructor | internal/handler/users.go:18-20 | a handler works on its store |
| Auth.UsersHandler.Create | internal/handler/users.go:34-72 | refuses missing names, short passwords and unknown roles; a new user has no second factor |
| Auth.UsersHandler.Update | internal/handler/users.go:74-117 | refuses the caller's own row and unknown roles; sets only what the request names |
| Auth.UsersHandler.Delete | internal/handler/users.go:119-136 | refuses the caller's own row |
| Auth.BootstrapAdmin | cmd/oximetric/main.go:112-150 | creates the administrator, or resets password and second factor when the configured password differs |
| Auth.LoginIsTwoSections | internal/handler/auth.go:91-102 | a login's effect on the tracker is that of the check and the record of the concurrent model |
| RowWriters.TokenMoveKeepsSound | internal/handler/projects.go:145-277 | every read, write and insert keeps rows and copies active exactly when they have no time of disabling |
| RowWriters.UserMoveKeepsSound | internal/handler/auth.go:168-259 | every read, write, insert and removal keeps the invariants of users and their copies |
| RowWriters.RunKeepsSound | internal/handler/users.go:60-117 | in every run from a sound state, with stale copies in flight: a token is active if and only if its time of disabling is null, a second factor that is on has a secret, and names, emails and roles meet their constraints |
| RowWriters.SecondFactorHolds | internal/handler/auth.go:86-102 | so in every state of a run a user whose second factor is on logs in only with a valid code, and only past the tracker |
| RowWriters.DisabledStaysIff | internal/handler/projects.go:207-277 | a token stays disabled along every run until a request enables it, if and only if it is disabled and no copy in flight holds it enabled |
| RowWriters.StaleWriteReenables | internal/handler/projects.go:159-242 | from any state with an active token such a copy can arise, and a disabled token is enabled again |
| RowWriters.AspectStaysIff | internal/handler/auth.go:129-259 | a second factor that is on, a secret, a password hash and a role each stay along every run until a request that is there to change them, if and only if the row and all copies in flight agree on it |
| RowWriters.PasswordHolds | internal/handler/auth.go:80-84 | along every run from a state where row and copies agree on a password hash, until a request to change it, only a password that meets that hash logs in |
| RowWriters.CredentialsHold | internal/handler/auth.go:80-113 | while second factor, secret and password are left alone, a login succeeds if and only if the password meets the hash and the code is valid for the secret and let through |
| RowWriters.StaleCopyWins | internal/storage/sqlite.go:90-96 | a copy that does not agree can be written, at the latest when the users whose name or email it would repeat are gone |
| RowWriters.StaleWriteDropsFactor | internal/handler/users.go:74-117 | a profile change that read the row earlier turns a second factor off |
| RowWriters.SetupReplacesSecret | internal/handler/auth.go:168-189 | on an account whose second factor is on, setting up replaces the secret and leaves it on, whatever passwords and codes there are |
| RowWriters.RestartIsSound | internal/handler/users.go:60-117 | a restart drops the copies in flight and keeps the invariants |
| RowWriters.TokenEditAlone | internal/handler/projects.go:159-277 | an undisturbed read and write of a run is the edit of the token handlers, which write exactly when a copy was made |
| RowWriters.UserEditAlone | internal/handler/auth.go:129-259 | the same for the handlers of console users |
| Calendar.YearStep | internal/storage/sqlite.go:626-637 | years have 365 or 366 days by the Gregorian rule |
| Calendar.DateOfDayNumber | internal/storage/sqlite.go:626-637 | the date of a date's day number is that date |
| Calendar.DayNumberOfDate | internal/storage/sqlite.go:626-637 | and the other way round |
| Calendar.DatesAscend | internal/storage/sqlite.go:626-637 | dates are ordered as their day numbers are |
| Calendar.EpochIsThursday | internal/storage/sqlite.go:626-637 | 1 January 1970 is the day the calendar says and a Thursday |
| Calendar.IsDateIff | internal/storage/sqlite.go:626-637 | the dates are exactly those of the Gregorian months of 31, 30, 28 or 29 days |
| Calendar.NextDay | internal/storage/sqlite.go:626-637 | the next day number has the next date and the next weekday |
| Calendar.WeekCountsMondays | internal/storage/sqlite.go:630-631 | the number of a `%W` week is the number of Mondays of the year so far |
| Calendar.SameWeekIff | internal/storage/sqlite.go:630-631 | two days share a `%Y-W%W` week if and only if they share a Monday and a year |
| Calendar.AtMostTwoWeeks | internal/storage/postgres.go:557-558 | of three days of a Monday week two share a `%Y-W%W` week |
| Calendar.WeeksAscend | internal/storage/sqlite.go:630-631 | `%Y-W%W` weeks never go back in time and number at most 53 |
| Labels.LexFields | internal/storage/sqlite.go:444-447 | texts with fields of fixed width are ordered field by field |
| Labels.DigitsAscend | internal/storage/sqlite.go:626-637 | numbers of a fixed number of digits are ordered as their texts are |
| Labels.LabelsSpell | internal/storage/sqlite.go:626-637 | a SQLite label read as text is the date, the full hour, the month, or the year with its number of Mondays so far |
| Labels.PgLabelsSpell | internal/storage/postgres.go:553-564 | a Postgres label is that label completed to a time stamp, and for a week the first second of the Monday that begins it |
| Labels.SqliteAscends | internal/storage/sqlite.go:626-637 | the text order of SQLite labels is chronological for the years 1 to 9999, for all four intervals |
| Labels.PgAscends | internal/storage/postgres.go:412-415 | the same for the labels of Postgres |
| Labels.TruncInRange | internal/storage/postgres.go:553-564 | truncating an instant of the years 1 to 9999 stays in these years, which begin on a Monday, and does not go forward |
| Labels.PgLabelIsLonger | internal/storage/postgres.go:553-564 | for hours, days and months the text of the truncated instant is the SQLite label with a fixed ending |
| Labels.DriversOrderAlike | internal/storage/postgres.go:553-564 | for hours, days and months the two drivers group and order any two instants alike |
| Labels.LabelsNest | internal/storage/sqlite.go:626-637 | a day's label begins the labels of its hours, and a month's those of its days |
| Labels.WeekLabelsNest | internal/storage/postgres.go:557-558 | instants with one SQLite week label have one Postgres week label |
| Labels.AtMostTwoWeekLabels | internal/storage/postgres.go:557-558 | of three instants with one Postgres week label two have one SQLite week label |
| Series.SumOfGroups | internal/storage/sqlite.go:400-402 | grouped counts add up to at most the rows, and to all of them if and only if no group is missing |
| Series.TopSum | internal/storage/sqlite.go:400-418 | a descending list under LIMIT adds up to all rows if and only if the limit cuts off no group |
| Series.TopIsHeaviest | internal/storage/sqlite.go:400-418 | no other list of as many groups counts more rows |
| Series.TopExists | internal/storage/sqlite.go:400-418 | the query has a result for every labelling and limit |
| Series.SeriesTotal | internal/storage/sqlite.go:444-447 | the counts of a time series add up to the rows |
| Series.SeriesAgree | internal/storage/sqlite.go:444-447 | labellings that order the rows alike give equal counts in equal order |
| Series.Resummation | internal/storage/sqlite.go:444-447 | the count of a coarse period is the sum of the counts of the fine periods inside it |
| Series.SeriesExists | internal/storage/sqlite.go:444-447 | every labelling of rows has a series |
| Analytics.OverviewAdds | internal/storage/sqlite.go:385-425 | active devices are at most the events, with equality if and only if no device sent two; each top list adds up to at most the events, with equality if and only if there are at most ten groups |
| Analytics.OverviewCounts | internal/storage/sqlite.go:385-425 | every number of the overview counts the stored events of the project between the two instants, both included, or their devices, or those with the name or country of a point; at most ten groups, largest first, none left out larger than one listed |
| Analytics.OverviewExists | internal/storage/sqlite.go:385-425 | every project and interval has an overview |
| Ingested.TrackedAreCounted | internal/storage/sqlite.go:385-425 | after a tracking call whose inserts fall into the interval, the total of the project and the count of the caller's country have grown by the count that the call answered; other countries and projects are as before |
| Ingested.CleanupSparesRecent | cmd/oximetric/main.go:176-182 | the retention job changes no overview of an interval that begins within the project's retention |
| Analytics.GroupsAdd | internal/storage/sqlite.go:427-441 | before LIMIT the counts of names, and of countries, add up to the events |
| Analytics.TimeSeriesAdds | internal/storage/sqlite.go:443-457 | for every interval and both drivers the time series adds up to the events |
| Analytics.SqlitePointsCount | internal/storage/sqlite.go:443-457 | each point counts the events of the project between the two instants whose label is the point's |
| Analytics.PgPointsCount | internal/storage/postgres.go:411-425 | the same for Postgres |
| Analytics.HourOfInstant | internal/storage/sqlite.go:626-637 | an instant in nanoseconds belongs to the day that many days after 1 January 1970 and to its hour |
| Analytics.DriversAgree | internal/storage/postgres.go:411-425 | for hours, days and months both drivers return equal counts in equal order |
| Analytics.SqliteIsChronological | internal/storage/sqlite.go:444-447 | the events of an earlier point were stored before those of a later one |
| Analytics.PgIsChronological | internal/storage/postgres.go:412-415 | the same for Postgres |
| Analytics.FinerSeriesAdd | internal/storage/sqlite.go:626-637 | the count of a day is the sum of the counts of its hours, and that of a month of its days |
| Analytics.PgFinerSeriesAdd | internal/storage/postgres.go:553-564 | the same for the labels of Postgres |
| Analytics.WeeksAdd | internal/storage/postgres.go:553-564 | the count of a Postgres week is the sum of the counts of the SQLite weeks inside it, of which there are at most two |

## Left out

- HTTP, JSON decoding, headers, logging, configuration, static pages, templates and scripts; the choice of the client's address and the lookup of its location.
- bcrypt, signing of sessions, generation of codes and of random tokens: arbitrary functions or parameters here. That a login for an unknown user takes as long as one with a wrong password is not modelled.
- The surrogate id of property rows, and the order of rows with equal sort keys.
- Texts that Postgres refuses in statements other than those of `Track`: an error there commits nothing and is one that `fails` stands for.
- OriginUrl.ParseUrl: refuses hosts with a percent sign or brackets, which the library may accept, so percent-escaped hosts and IPv6 literals are not modelled; user information, ports, paths, queries, fragments and a wildcard mark in any later place are.
- RateLimit.RateLimiter.Allow: the refill is exact arithmetic on nanoseconds; the program multiplies floating-point minutes, which can differ from it by rounding at a token's boundary.
- Auth.AuthHandler.Login: which row a login string finds, when it is the name of one user and the email of another, is left open, as the query leaves it.
- Tracking.BuildProperty: integers are unbounded and numbers exact; the program converts a float to 64 bits, where values out of range are implementation-defined.
- Integer overflow of counters, ids and clock readings.
- Text formats of stored timestamps: instants are numbers, created_at is compared as a number, and a day of retention is 24 hours.
- Calendar years outside 1 to 9999: later ones do not have four digits, and earlier ones are years BC for Postgres.
- Analytics.GroupsAdd: pages under OFFSET are not modelled, because rows with equal counts come in no defined order.
- The time series of new users, whose query differs from the one for events in its table only; property breakdowns, device and city lists, and retention cohorts, which the program returns empty.
- Lost updates in general: concurrent writers can overwrite each other's fields, and only the row invariants above are claimed.
- The console's own reads, role checks of routes, and project renaming beyond its statement.
