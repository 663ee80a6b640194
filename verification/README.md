# Login-event handlers: a Dafny model

The repository replays "streams" of login events — `ssh` (log in to an
account by name and password), `sudo` (check a password against the current
account) and `dir` (act as the current account) — against a fixed directory of
ten accounts. The same per-stream state machine (`CurrentUser`) exists in an
asyncio, a threading and a Go server, with a weaker copy in a multiprocessing
server. Each server admits at most a fixed number of streams. Two offline
parsers turn a text file into streams: a Python one that cuts the text at `#`,
and a Go one that reads lines with `#stream-` headers.

This project models those pieces as pure functions and proves their
properties:

- `Directory` — the account record, the shipped ten-account table, and the
  name search. The Python copies stop at the first match. The Go copy has no
  `break` and keeps the last match. A name that matches nothing leaves the
  session's index as it was.
- `Auth` — one `ssh`, `sudo` or `dir` call as a step on
  `(directory, current index)`, the dispatch on the event type, and a whole
  stream as a fold. Each `ssh` call is modelled as one atomic step. That is
  exact for the asyncio copy: its critical section has no `await`, so no
  other task runs inside it. For the threading and Go copies it is an
  abstraction: they hold only the target account's lock while they also
  clear the previous account (see "Left out"). The three locking copies
  share this model. The only difference is the lookup order, which is a
  parameter.
- `Interleaving` — many sessions plus an arbitrary schedule of which session
  handles its next event. The cross-stream invariants are proved for every
  schedule.
- `MpAuth` — the multiprocessing replay. It never changes the shared
  directory, does no occupancy or lockout check, and a wrong password keeps
  the current account.
- `Admission` — the check-and-increment counter in front of the handlers, and
  the "all streams admitted" signal.
- `Text`, `Events`, `PyParse`, `GoParse` — the whitespace trimming and
  splitting the parsers rely on, field decoding for one event line, and both
  parsers.
  - Each parser has a formatter as its inverse, with a round-trip theorem.
  - The Go parser also has a declarative reference definition (`Streams`).
    The scanner loop (`ParseStreams`) is proved equal to it. Its loop body
    is the function `Feed`.
- `Seqs` — a few generic facts about gluing sequences together, used by the
  longer proofs.

Quirks of the source that the model keeps, on purpose:

- A failed login on another account drops the session's index. It does not
  release the account the stream already occupies. That account stays taken,
  and the stream's later `sudo`/`dir` events are skipped.
- An `ssh` with an unknown name while bound keeps the old index. When the
  session occupies that account (always, for a non-empty id), it then ends
  in the "already logged in" branch without checking the password.
- A stream whose id is empty never gets the "logged in" outcome and never
  changes the directory. Every free account's occupant is `""`, so it matches
  the first guard ("already logged in"). The session's index still moves to
  that account, with no password check, even when the account is blocked.
  Its later `dir` events are accepted, and so is a `sudo` with that account's
  password. Another stream can log in there later. The index then points at
  an account someone else occupies, so the cross-stream invariant is stated
  for non-empty ids.
- Re-login to an account the stream still occupies sets the index to that
  account, even when the index was `-1` after an earlier failure. Nothing
  changes only when the index already was that account.
- The Python parser stores a `sudo` argument in `name`. The Go parser stores
  it in `Passwd`, and every handler reads the password. Both placements are
  modelled through `SudoSlot`.
- The Python parser splits the unstripped line at commas. So `" ssh,a,b"` is
  dropped, and trailing blanks stay in the last field. The Go parser trims
  the line first.
- The Go `len(parts) == 0` check can never fire. `Text.Split` always returns
  at least one piece.

Conventions: a free account has occupant `""`. "No account" is the index
`-1`, as in the source. Whitespace is the set each language trims among
characters below U+0100 (see `Text.IsSpace`).

## Model

| member | source | states |
|---|---|---|
| `Directory.Initial` | py-event-handler/asyncio-event-handler/__asyncio__.py:41-52 | the ten shipped accounts, all free and with no failed logins |
| `Directory.InitialWellFormed` | go-event-handler/models/users.go:15-26 | the shipped table has distinct names, no retries above three and no occupied account with retries |
| `Directory.Lookup` | py-event-handler/asyncio-event-handler/__asyncio__.py:60-63 | `-1` exactly when no account has the name; otherwise an account with the name, with none before it (first match) or after it (last match) |
| `Directory.ScanNames` | go-event-handler/main.go:20-25 | the search loop as written: the index becomes the first (Python, `break`) or last (Go, no `break`) match; with no match it keeps the session's previous index |
| `Directory.LookupOrderIrrelevant` | go-event-handler/main.go:21-25 | with distinct names the last-match and first-match searches pick the same account |
| `Directory.LookupOrderMattersOnDuplicates` | go-event-handler/main.go:21-25 | whenever two accounts share a name, the first-match search stops at or before the earlier one and the last-match search at or after the later one, so they differ |
| `Auth.Target` | py-event-handler/threading-event-handler/__threading__.py:56-66 | the account a login acts on is a valid index; unless it is the session's own, it carries the name searched for |
| `Auth.Login` | py-event-handler/asyncio-event-handler/__asyncio__.py:58-98 | a login changes only occupancy and retry counters; every refusal except a wrong password leaves the directory as it was; every outcome other than success or "already logged in" leaves the session with no account |
| `Auth.SudoCmd` | py-event-handler/asyncio-event-handler/__asyncio__.py:100-108 | `sudo` changes nothing; it is skipped without an account and accepted exactly when the password is the current account's |
| `Auth.DirCmd` | go-event-handler/main.go:90-96 | `dir` changes nothing and is accepted exactly when there is a current account |
| `Auth.HandleEvent` | py-event-handler/threading-event-handler/__threading__.py:115-121 | only `ssh` changes anything; an event is ignored exactly when its type is not `ssh`, `sudo` or `dir` |
| `Auth.RunEvents` | py-event-handler/asyncio-event-handler/__asyncio__.py:115-126 | a stream's events yield one outcome each, and names and passwords never change |
| `Auth.LoginKeepsWellFormed` | py-event-handler/asyncio-event-handler/__asyncio__.py:81-90 | retries never exceed three, and an occupied account has none |
| `Auth.RetriesChangeOnlyAtTarget` | py-event-handler/threading-event-handler/__threading__.py:77-93 | a retry counter changes only at the login's target: by one on a wrong password for a free account below three, or back to zero on success |
| `Auth.WrongPasswordCounts` | py-event-handler/asyncio-event-handler/__asyncio__.py:86-90 | a wrong password on a free target below three retries adds exactly one to that target's counter, changes nothing else and leaves the session with no account |
| `Auth.ThreeFailuresBlock` | py-event-handler/threading-event-handler/__threading__.py:77-86 | concrete run on the shipped table: three wrong passwords for `dev_user` from three streams bring it to three retries, and a fourth login with the right password is refused as blocked |
| `Auth.OccupiedByOtherRefused` | py-event-handler/asyncio-event-handler/__asyncio__.py:76-79 | an account occupied by another stream refuses the login; the directory is unchanged and the session has no account |
| `Auth.BlockedRefused` | go-event-handler/main.go:48-53 | for a non-empty stream id, at three retries every login is refused, the right password included, and the directory is unchanged |
| `Auth.LoginSuccess` | py-event-handler/asyncio-event-handler/__asyncio__.py:86-97 | success holds exactly when the target is free, below three retries and the password matches (with a non-empty id); it occupies the target, clears its retries, frees the previous account and changes nothing else |
| `Auth.ReLoginNoChange` | py-event-handler/threading-event-handler/__threading__.py:68-70 | logging in to an account the stream occupies changes nothing in the directory; for a session already on it, nothing at all |
| `Auth.UnknownName` | py-event-handler/threading-event-handler/__threading__.py:56-70 | an unknown name leaves an unbound session unbound; a bound session that occupies its account (always, for a non-empty id) keeps its index and ends as "already logged in", unchanged |
| `Auth.LoginRespectsOthers` | go-event-handler/main.go:36-72 | an account's occupant changes only from free to this stream or from this stream to free; accounts of other streams are untouched |
| `Auth.LoginKeepsSessionOk` | py-event-handler/asyncio-event-handler/__asyncio__.py:59-98 | after a login the session's account, if any, is occupied by its own stream |
| `Auth.EmptyIdNeverChanges` | py-event-handler/asyncio-event-handler/__asyncio__.py:72-79 | a stream with an empty id never changes the directory and never gets the `LoggedIn` outcome (it is still bound to free accounts; see `Auth.EmptyIdTakesFreeAccount`) |
| `Auth.EmptyIdTakesFreeAccount` | py-event-handler/threading-event-handler/__threading__.py:68-70 | a stream with an empty id naming a free account, blocked or not, is bound to it as "already logged in" with no password check; its `dir` is then accepted, and so is a `sudo` with the account's password |
| `Auth.LoginKeepsBlocked` | py-event-handler/asyncio-event-handler/__asyncio__.py:81-84 | a blocked account stays exactly as it is under any login |
| `Auth.FailedLoginOrphans` | py-event-handler/threading-event-handler/__threading__.py:72-107 | a failed login elsewhere drops the index but the old account stays occupied by the stream, and later `sudo`/`dir` are skipped |
| `Auth.RunEventsAppend` | py-event-handler/threading-event-handler/__threading__.py:115-121 | handling `a + b` is handling `a`, then `b` from where `a` ended: events are handled strictly in list order |
| `Auth.UnknownKindSkipped` | go-event-handler/main.go:103-113 | an event of an unknown type is skipped; the run continues as if it were absent |
| `Auth.RunKeepsWellFormed` | go-event-handler/main.go:98-114 | a whole stream keeps retries at most three |
| `Auth.RunKeepsBlocked` | py-event-handler/threading-event-handler/__threading__.py:77-80 | once blocked, an account stays blocked and unchanged for the rest of the stream |
| `Auth.HandleStream` | py-event-handler/asyncio-event-handler/__asyncio__.py:115-126 | a stream, started with no account, gives one outcome per event and never changes a name or password |
| `Auth.HandleStreamLoop` | go-event-handler/main.go:98-114 | the handler's loop, starting with no account, ends where the fold over the events ends |
| `Auth.OrphanedOccupancyExample` | py-event-handler/threading-event-handler/__threading__.py:82-86 | concrete stream: log in to `superadmin`, fail on `auditor`; `superadmin` stays occupied while the following `sudo` is skipped |
| `Interleaving.StartInv` | go-event-handler/main.go:98-102 | every session starts with no account, so a well-formed directory and distinct ids satisfy the invariant |
| `Interleaving.StepSession` | go-event-handler/main.go:103-113 | one step handles the next event of one session only: every other session is unchanged, and names and passwords never change |
| `Interleaving.StepKeepsInv` | py-event-handler/asyncio-event-handler/__asyncio__.py:69-98 | one atomic step by any session keeps the invariant: directory well formed, each session with an id on an account it occupies |
| `Interleaving.ScheduleKeepsInv` | py-event-handler/threading-event-handler/__threading__.py:55-93 | the invariant holds after every schedule of steps |
| `Interleaving.AnyInterleaving` | py-event-handler/asyncio-event-handler/__asyncio__.py:59-98 | streams with distinct ids on the shipped table: after any interleaving, retries are at most three and each session with a non-empty id is on an account occupied by its own stream |
| `Interleaving.NoSharedAccount` | go-event-handler/main.go:33-72 | two sessions with ids never share a current account |
| `Interleaving.StepRespectsOccupants` | go-event-handler/main.go:63-71 | in any step an occupant changes only from free to the stepping stream or back; no stream overwrites another's occupancy |
| `Interleaving.BlockedUnderAnySchedule` | go-event-handler/main.go:48-53 | lockout is sticky across every interleaving |
| `Interleaving.SingleStream` | go-event-handler/main.go:98-114 | one stream stepped alone to the end behaves as handling it sequentially |
| `MpAuth.MpLogin` | py-event-handler/multiprocessing-event-handler/__multiprocessing__.py:49-60 | the shared directory never changes; the session ends with no account only when the name is unknown and it had none |
| `MpAuth.MpHandleEvent` | py-event-handler/multiprocessing-event-handler/__multiprocessing__.py:48-71 | no event changes the shared directory; only `ssh` moves the index; unknown types are ignored |
| `MpAuth.MpRunEvents` | py-event-handler/multiprocessing-event-handler/__multiprocessing__.py:44-72 | a whole stream leaves the shared directory as it was |
| `MpAuth.MpKnownName` | py-event-handler/multiprocessing-event-handler/__multiprocessing__.py:50-60 | a known name becomes current whatever the password; the login is accepted exactly when the password matches, with no occupancy or lockout check |
| `MpAuth.MpUnknownName` | py-event-handler/multiprocessing-event-handler/__multiprocessing__.py:50-56 | an unknown name keeps the current index, and the password is checked against that account |
| `MpAuth.MpWrongPasswordKeepsAccount` | py-event-handler/multiprocessing-event-handler/__multiprocessing__.py:59-71 | after a wrong password the account stays current, so `dir` and a correct `sudo` are accepted |
| `MpAuth.MpAcceptsLockingLogins` | py-event-handler/multiprocessing-event-handler/__multiprocessing__.py:54-58 | every login the locking handler accepts, this one accepts on the same account |
| `MpAuth.MpIgnoresOccupancy` | py-event-handler/multiprocessing-event-handler/__multiprocessing__.py:54-58 | whenever the target is occupied by another stream and the password matches, the locking handler refuses the login and this one accepts it, on that account, with the directory unchanged |
| `MpAuth.MpHandleStream` | py-event-handler/multiprocessing-event-handler/__multiprocessing__.py:44-72 | a stream, started with no account, gives one outcome per event and leaves the shared directory as it was |
| `Admission.Admit` | py-event-handler/asyncio-event-handler/__asyncio__.py:169-180 | refused exactly at or above the limit; otherwise admitted as the next stream, never beyond the limit, firing the signal exactly when it reaches the limit |
| `Admission.AdmitKeepsBound` | py-event-handler/threading-event-handler/__threading__.py:152-157 | the counter stays within the limit; a refusal leaves it unchanged and an admission adds exactly one |
| `Admission.RequestsShape` | go-event-handler/main.go:149-159 | request `i` is decided as if `total + i` streams were in; the counter ends at the smaller of the limit and `total + n` |
| `Admission.DoneAtMostOnce` | go-event-handler/main.go:170-175 | from zero, the signal fires at most once, and exactly when the limit is positive and that many requests arrive |
| `Admission.Serve` | py-event-handler/multiprocessing-event-handler/__multiprocessing__.py:97-108 | after `n` requests the counter is the smaller of `n` and the limit (zero for a limit below one) and the signal fired once exactly when the limit was reached |
| `Text.Strip` | go-data-handler/pkg/parseFile.go:10 | the trimmed string is no longer than the input and neither starts nor ends with whitespace |
| `Text.Split` | py-event-handler/main.py:22 | never an empty list; no piece contains the separator; the first piece is a prefix of the input, non-empty when the input starts with something other than the separator |
| `Text.StripIdempotent` | go-data-handler/pkg/parseFile.go:10 | trimming twice is trimming once, so the trim at the start of `parseEvent` leaves the already trimmed line of the scanner loop unchanged |
| `Text.StripAround` | py-event-handler/main.py:22 | stripping text around a non-whitespace character trims only the front of what precedes it and only the back of what follows it |
| `Text.StripEmpty` | py-event-handler/main.py:25 | a stripped string is empty exactly when it is all whitespace |
| `Text.JoinSplit` | py-event-handler/main.py:37 | splitting loses nothing: the pieces joined with the separator give back the input |
| `Text.SplitCount` | py-event-handler/pkg/parse.py:15 | splitting yields one more piece than there are separators |
| `Text.SplitJoin` | go-event-handler/pkg/parseFile.go:14 | pieces without the separator, joined and split again, come back unchanged |
| `Events.FromFields` | py-event-handler/main.py:37-45 | a line is kept exactly when its first field is a known type with enough fields; the event's fields are the line's first fields, the rest ignored |
| `Events.FormatLineRoundTrip` | go-data-handler/pkg/parseFile.go:15-38 | a written event line splits back into its fields and decodes to the event |
| `PyParse.ParseLine` | py-event-handler/main.py:33-45 | a blank line gives no event; every event given is in the Python field layout |
| `PyParse.ParseLineFields` | py-event-handler/main.py:33-45 | a line gives an event exactly when it is non-blank with a known first field and enough fields; `sudo`'s argument lands in `name` |
| `PyParse.ParseLinesAppend` | py-event-handler/pkg/parse.py:25-40 | events follow line order |
| `PyParse.ParseBlock` | py-event-handler/pkg/parse.py:17-23 | a blank block yields nothing; any other yields a stream with a non-empty id without line breaks |
| `PyParse.BlockIdFirstLine` | py-event-handler/pkg/parse.py:21-22 | the id is the stripped block's first line |
| `PyParse.ParseStreams` | py-event-handler/main.py:20-22 | text with no `#` gives no streams (the general preamble drop is `PyParse.PreambleDropped`) |
| `PyParse.PreambleDropped` | py-event-handler/main.py:22 | whatever comes before the first `#` (whitespace stripping included) is dropped: the text parses as the text from that `#` on |
| `PyParse.PreambleDroppedConcat` | py-event-handler/main.py:22 | `pre + "#" + rest` parses as `"#" + rest` when `pre` holds no `#` |
| `PyParse.StreamsAtMostHashes` | py-event-handler/main.py:22 | never more streams than `#` characters |
| `PyParse.ParseBlocksCount` | py-event-handler/main.py:24-26 | the number of streams is the number of non-blank blocks; so all non-blank blocks give one each and all-blank blocks give none |
| `PyParse.ParseBlocksAppend` | py-event-handler/main.py:24-47 | blocks become streams in order |
| `PyParse.StreamIdsWellFormed` | py-event-handler/main.py:20-29 | every parsed id is non-empty and free of `#` and line breaks |
| `PyParse.RoundTrip` | py-event-handler/pkg/parse.py:13-42 | parsing the text written for well-formed streams gives back the same streams, events and order |
| `GoParse.ParseEvent` | go-data-handler/pkg/parseFile.go:9-13 | a line blank after trimming gives no event; every event given is in the Go field layout |
| `GoParse.ParseEventFields` | go-data-handler/pkg/parseFile.go:9-39 | a line gives an event exactly when it is not blank after trimming and has a known type with enough fields; `sudo`'s argument lands in `Passwd` |
| `GoParse.HeaderId` | go-event-handler/pkg/parseFile.go:47-54 | a header's id is the trimmed line without its `#`, so it starts with `stream-` |
| `GoParse.Streams` | go-data-handler/pkg/parseFile.go:41-68 | the reference definition of the scanner's result: exactly one stream per header line (which stream each header gives is stated by `StreamOfHeader`) |
| `GoParse.StreamsPerHeader` | go-data-handler/pkg/parseFile.go:48-55 | one stream per header line, each id starting with `stream-` |
| `GoParse.ParseStreams` | go-data-handler/pkg/parseFile.go:41-68 | the scanner loop returns exactly the reference result, the last open stream included |
| `GoParse.Feed` | go-data-handler/pkg/parseFile.go:46-60 | one line emits at most one stream; when no stream is open afterwards, none was open before and nothing is emitted |
| `GoParse.FeedPending` | go-data-handler/pkg/parseFile.go:46-60 | one turn of the scanner loop loses and invents nothing: a header closes the open stream, an event line feeds it, and the streams emitted plus those still pending stay the same |
| `GoParse.PreambleIgnored` | go-event-handler/pkg/parseFile.go:55 | lines before the first header are ignored |
| `GoParse.StreamOfHeader` | go-event-handler/pkg/parseFile.go:44-64 | the k-th header's stream has that header's id and the events of the lines up to the next header |
| `GoParse.RoundTrip` | go-event-handler/pkg/parseFile.go:40-67 | parsing the lines written for well-formed streams gives back the same streams, events and order |

## Left out

- HTTP and JSON plumbing is not modelled: routing, request decoding, the 400
  and 405 responses, and the server lifecycle. Neither is any of
  `go-data-handler/main.go`, which opens the data file, posts the streams and
  serves static files.
- Real concurrency primitives are not modelled. Locks, semaphores, tasks,
  threads, processes, goroutines, wait groups and done channels are replaced
  by atomic steps and arbitrary schedules. The data races are out as well:
  - the threading and Go handlers clear the previous account while holding
    only the target account's lock (`py-event-handler/threading-event-handler/__threading__.py:90`,
    `go-event-handler/main.go:65`). Both run preemptively, so that write can
    overlap another stream's critical section on the previous account. The
    asyncio copy does the same write (`py-event-handler/asyncio-event-handler/__asyncio__.py:94`),
    but with no `await` between the lock and the return it cannot overlap
    anything;
  - the Go handler adds to `totalTime` without a lock.
- Timing and metrics are left out: clocks, accumulated durations, the float
  average, and the division by zero when no stream was admitted, in both the
  threading server (`py-event-handler/threading-event-handler/__threading__.py:192`) and the multiprocessing server
  (`py-event-handler/multiprocessing-event-handler/__multiprocessing__.py:137`).
- The signal's delay (100 ms in the Go and asyncio servers) and the 30-minute
  timeout are left out. Only when the signal is triggered is modelled.
- The multiprocessing server's manager-dict proxy is left out. Its write to
  `authd` lands on a copy, so the model keeps the shared directory constant
  and never reads `authd` there.
- Log text and the response `count` string are left out. The outcomes carry
  what the logs report.
- The `Sudo`, `SudoRetries` and `Blocked` account fields are left out,
  because no handler reads them.
- File reading is left out: opening the file, the text-mode newline
  translation, the Go scanner's line splitting and its token-size limit. The
  Python parser takes the whole text; the Go parser takes the lines.
- Whitespace above U+00FF is not modelled. `str.strip` and
  `strings.TrimSpace` also trim Unicode spaces such as U+2028; `Text.IsSpace`
  covers characters below U+0100 only.
- The `-max` flag parsing of the Go server is left out. The limit is any
  integer parameter, with defaults `PyMaxStreams` (50) and
  `GoDefaultMaxStreams` (5).
- `Interleaving.AnyInterleaving`: requires distinct stream ids. With a
  repeated id, two sessions can release each other's accounts, and the
  invariant does not hold. It also promises own-account occupancy only for
  sessions with a non-empty id: a session with the empty id can be left on
  an account that another stream occupies later.
