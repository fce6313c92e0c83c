# Verification of the blockchain auditor

This Dafny project models the auditor's core and proves what it keeps and what it does not:
the event record with its printer, parser and hash (`Crypto`, `Event`), the local log, the
integrity test and the tamper simulation (`LocalLog`, `BrokenLines`, `Integrity`, `Tampering`), the
bounded queue under any number of threads (`AsyncQueue`, `QueueProtocol`), the process made of a
producing main thread, a worker and a signal (`Pipeline`), the chaincode and the gateway
(`JsonReader`, `Ledger`, `Delivery`), and three loops that feed them (`ProcMonitor`, `Cmdline`,
`AuditRecord`). `CStrings` and `JsonFields` hold the text library: C strings, `strstr`, decimal
numbers, and where a search finds a key in a flat object.

How to check it: `dafny verify dfyconfig.toml` (Dafny 4.11).

Modelling decisions:

- A C string is the text up to its NUL; a pointer into it is a suffix. Fixed buffers (`char[N]`,
  the event ring, the line cache, the pid array) are arrays that the methods fill in place.
  Every such method is proved against a function of its inputs, and the theorems are about
  those functions.
- SHA-256 (section 6.2 of FIPS 180-4) is any function from texts to 32 bytes, passed as a
  parameter. Statements about detection name the two different texts that would have to collide.
- The queue's threads are a step relation with one program counter for each thread, the mutex
  owner, and for each condition variable the sleeping and the woken waiters. As POSIX.1-2017
  allows, waiters may wake unsignalled (a timeout looks the same) and a signal wakes at least
  one waiter. `g_running` is read and written atomically.
- A post is a pair of outcomes chosen by the network: whether it committed, and whether it was
  reported as sent. The two are independent, because the client reports success for every
  completed exchange whatever its HTTP status (src/http_client.c:78-88).
- JavaScript's `JSON.parse` and `JSON.stringify` are parameters of the ledger's results, which
  assume of them only that they read the events in question back unchanged. `Ledger.STANDARD` is an
  instance by RFC 8259, on flat objects of texts and whole numbers without white space between the
  tokens; for it `Ledger.UnderstoodIffPlain` says which events these are.

- Lemmas to which Dafny would apply automatic induction carry `{:induction false}`: every induction
  is written out, and no automatic induction hypothesis takes part in a proof.

What the proofs found, where the code and what one expects of it differ:

- The printer does not escape strings as section 7 of RFC 8259 asks for, while the parser
  unescapes the command. `RoundTrip.RoundTripExact` gives the exact set of records that survive:
  no quote in any field, no backslash in the command, no negative pid (`RoundTrip.BackslashIsLost`
  shows a record that does not). Two records with quotes can share a hash input
  (`RoundTrip.QuotesBreakInjectivity`), but none shares that of a quote-free record
  (`RoundTrip.HashInputInjective`).
- An untouched event with a quote or a newline in a field, a backslash in its command or a negative
  pid is reported as tampered with (`Integrity.ExactAcceptance`, `Integrity.ReportedLines`, shown by
  `Integrity.BackslashReported` and, for the command `echo "hi"`, `Integrity.QuoteReported`). Only a
  field that spells out a key of the parser can change that.
- Some overwritten commands are not reported. A backslash in front of the old command, as in `\ls`
  for `ls`, is dropped by the parser (`Tampering.EscapeUnnoticed`), and so are whole further members
  after the old command (`Tampering.SpliceUnnoticed`). Worse, a value can bring in the rest of another
  record with that record's own hash: the line then passes as the other record
  (`Tampering.ForgeryUnnoticed`). These are all the ways: a line passes only if the old event is read
  from it, or another hash than the event's, or by a collision (`Integrity.VerdictByHash`), and
  `Tampering.TamperVerdict` says exactly which values pass unless they bring in the hash's key.
- `queue_pop` refuses as soon as the shutdown flag is set, while the worker loops as long as the
  count is positive. So without a signal the stop sequence terminates exactly when it finds the
  queue empty (`Pipeline.JoinIffEmpty`, `Pipeline.ShutdownTerminates`); with one event left it hangs
  (`Pipeline.ShutdownHangs`, reachable by `Pipeline.HangIsReachable`). After a signal it also
  terminates when the worker is gone or leaving, and then logged events can be lost in the queue
  (`Pipeline.LossIsReachable`).
- A signal during production can let the worker leave early; the main thread then blocks for
  good in the push that finds the queue full, and never reaches the stop sequence.
  `Pipeline.PushReturnsIff` says exactly when a push can return; `Pipeline.BlockIsReachable` and
  `Pipeline.LateBlockIsReachable` reach the two states in which it cannot.
- The gateway parses the auditor's unescaped text with `JSON.parse`. It stores exactly the events
  without quotes, backslashes and control characters as they are (`Ledger.StoredIffPlain`); the
  command `a\tb`, for one, becomes an `a`, a tab and a `b` under the same hash
  (`Ledger.EscapeIsRewritten`).
- The repository's README.md presents GET /api/verify as recomputing the hashes, but the gateway
  hashes the bare concatenated values, not the auditor's text: it disputes every event the
  auditor hashed (`Ledger.LedgerDisputed`, `Delivery.RunDisputed`, shown by
  `Ledger.PlainEventDisputed`). That text does not even tell where one value ends and the next
  begins (`Ledger.GatewayConfuses`).
- A missing key in an audit record reads as the number after the first place where the key and an
  equals sign occur inside another token (`AuditRecord.FieldLongMissing`): another key's ending
  (`AuditRecord.ParentTakenForPid`) or the text of an argument (`AuditRecord.ArgumentTakenForPid`).

## Model

| member | source | states |
|---|---|---|
| CStrings.StrStrIsFirst | src/event.c:42 | the modelled strstr misses no occurrence and returns none later than another one |
| CStrings.ScanIntRoundTrip | src/event.c:86-93 | a number printed with %d is read back by the sign and digit loop, whatever non-digit follows |
| JsonFields.Located | src/event.c:42-97 | searching from the start of the text, the first occurrence of a key pattern is the member itself when no member before it shows the pattern |
| JsonFields.MemberShows | src/event.c:42-97 | a member shows another key's pattern only if its text, with the quotes around it, does |
| JsonFields.RenderInjective | src/event.c:21-25 | two quote-free objects with the same keys that print alike are equal member by member |
| JsonFields.RenderDetermines | src/event.c:21-25 | a quote-free object prints like no other object with the same keys, quote-free or not |
| Crypto.Sha256Hash | src/crypto.c:7-21 | the hex loop leaves the 64 lower-case digits of the digest, NUL-terminated, in the output buffer |
| Crypto.HexDecodes | src/crypto.c:17-19 | every byte of the digest is what the two digits at its place stand for, the high one first |
| Crypto.HexInjective | src/crypto.c:17-19 | equal hex texts come from equal digests, so equal printed hashes of different texts are a collision |
| Event.CopyUntilQuote | src/event.c:46-47 | the bounded copy loop leaves the text up to the quote, the end or the bound, NUL-terminated |
| Event.CopyCommand | src/event.c:53-57 | the command's loop leaves the unescaped text, a backslash taking the next character whatever it is |
| RoundTrip.CopyRunEnds | src/event.c:46-47 | the copy loops stop only at a quote, the end or the bound |
| RoundTrip.UnescapeInverts | src/event.c:53-57 | the command's loop undoes putting a backslash in front of every quote and backslash, and cuts to its bound |
| Event.AuditEvent.Init | src/event.c:8-17 | the whole record after initialisation, with type and command cut to their buffers |
| Event.AuditEvent.ComputeHash | src/event.c:19-27 | only the hash changes, to the digest of the printed seven fields |
| RoundTrip.HashInputFormat | src/event.c:20-25 | the hash input is the format string with the seven fields in their places, braces and numbers included |
| Event.AuditEvent.ToJson | src/event.c:29-35 | the buffer holds the printed record, cut to its size, and the record is unchanged |
| RoundTrip.StoredFormat | src/event.c:29-35 | the stored form is the hash input with the hash as one more member before the closing brace |
| Event.AuditEvent.FromJson | src/event.c:37-103 | return code and the whole record, also after a failed search, are those of eight searches from the start of the text |
| EventProofs.ParseStops | src/event.c:37-103 | a parse returns 0 or -1, and leaves what was found up to the first search that failed and zero after it |
| EventProofs.ParseObject | src/event.c:37-103 | on any printed object in which the event's eight members are what is found first under their keys, the command not last, the parse gives that event but for quotes and backslashes in the command and a negative pid |
| EventProofs.ParseSucceeds | src/event.c:37-103 | the parse of any printed record succeeds, whatever its fields hold |
| EventProofs.OwnHashRead | src/event.c:95-100 | from a printed record its own hash is read unless a field, with the quotes around it, shows the hash's pattern |
| EventProofs.ParsePrinted | src/event.c:29-103 | for every quote-free record the parse succeeds and rebuilds every field but the command's backslashes and a negative pid, for which it says what is read instead |
| RoundTrip.RoundTripExact | src/event.c:29-103 | over all representable records print and parse give the record back if and only if no field has a quote, the command no backslash and the pid is not negative |
| RoundTrip.BackslashIsLost | src/event.c:53-57 | a representable record with the command `\ls` that is read back with the command `ls` |
| RoundTrip.NeverTruncated | src/event.c:20-35 | the field bounds keep the hash input at 5335 and the JSON form at 5409 characters, so neither snprintf into 8192 bytes ever cuts |
| RoundTrip.HashInputInjective | src/event.c:19-27 | a record with quote-free fields shares its hash input only with records equal in all seven hashed fields, whatever these hold |
| RoundTrip.QuotesBreakInjectivity | src/event.c:19-27 | two representable records with quotes that have one hash input and different commands |
| RoundTrip.ReadsBackOnlyPlain | src/event.c:29-103 | whatever record reads back as itself has no quote, no backslash in the command and no negative pid |
| RoundTrip.SameTextsReadBack | src/event.c:19-103 | if what is read from a record has its hash and its hash input, it is the record itself, and that is readable |
| RoundTrip.UnreadableHashesDiffer | src/event.c:19-70 | a record that is not read back has a hash input different from that of what is read |
| LocalLog.Log.Write | src/log_local.c:30-38 | the file grows by exactly the printed record and a newline |
| LocalLog.Log.ReadAll | src/log_local.c:40-65 | the cache holds the file's lines as fgets chunks them, at most 65536, and the file is unchanged |
| LocalLog.ReadBack | src/log_local.c:40-65 | any newline-free and NUL-free lines of at most 8190 characters are read back in order, up to the limit |
| LocalLog.ReadBackPieces | src/log_local.c:40-65 | texts with newlines are read back as the lines they fall into |
| LocalLog.LongLineInPieces | src/log_local.c:53-60 | a line that does not fit the buffer is read as its first 8191 characters and then the rest |
| LocalLog.Log.SimulateTamper | src/log_local.c:67-107 | the file after the rewrite, when the call succeeds, and that a failed call leaves it alone |
| LocalLog.TamperRewrites | src/log_local.c:67-107 | the rewrite replaces one line and keeps all other cached lines, lines beyond the cache being lost; a line without a hash or a closed command leaves the file alone |
| LocalLog.Log.Clear | src/log_local.c:109-113 | afterwards there is no log file |
| Integrity.CheckLine | src/main.c:366-382 | a line is verified exactly when it parses and its recomputed hash equals the stored one |
| Integrity.IntegrityTest | src/main.c:331-392 | reported lines, counts, exit code and file for any file, tampered line number and value; without a log file there are no lines, no failure and exit code 0 |
| Integrity.ExactAcceptance | src/main.c:363-383 | a freshly logged event whose own hash is read passes its own test if and only if no field has a quote, its command has no backslash and its pid is not negative, or two named texts collide; its own hash is read unless a field brings in the hash's key |
| Integrity.GenuineAcceptance | src/main.c:363-383 | a quote-free one passes if and only if its command has no backslash and its pid is not negative, or two named texts collide |
| Integrity.BackslashReported | src/main.c:363-383 | a genuine, untouched event with the command `\ls` that fails its own test, or two named texts collide |
| Integrity.QuoteReported | src/main.c:363-383 | an untouched event with the command `echo "hi"` that fails its own test, or two named texts collide |
| Integrity.VerdictByHash | src/main.c:366-382 | any line passes only if the genuine event is read from it, or another hash than its own, or two named texts collide; if its hash is what is read, exactly then |
| Integrity.WriteExtendsLog | src/log_local.c:30-38 | logging another event extends the written log by its printed form |
| Integrity.LogReadsBack | src/log_local.c:40-65 | a log of any representable events is read back as the lines their printed forms fall into, up to 65536 |
| Integrity.UntamperedPasses | src/main.c:355-391 | an untouched log of readable genuine events has no failing line |
| BrokenLines.NoPieceParses | src/main.c:366-370 | none of the lines that a record with a newline falls into parses, if no field brings a key in |
| Integrity.ReportedLines | src/main.c:363-383 | in a log of freshly hashed events every line of every event is reported if and only if it fails; if no field of the event brings a key in, that is when it has a newline, a quote, a backslash in its command or a negative pid, collisions aside |
| Tampering.TamperReplacesCommand | src/log_local.c:76-92 | tampering with a printed event yields the printed event with only the command replaced, for every value, cut to the line buffer |
| Tampering.TamperVerdict | src/main.c:366-382 | a value of any length, quotes and newlines included, that does not bring the hash's key in passes if and only if the old event is read, and one that brings no later key in if and only if it is read back as the old command and the pid is not negative, or two named texts collide |
| Tampering.EscapeUnnoticed | src/main.c:366-382 | putting a backslash in front of the command of any readable genuine event is not noticed |
| Tampering.SpliceUnnoticed | src/main.c:366-382 | nor is a value that closes the old command and goes on with members of keys the parser does not search for |
| Tampering.ForgeryUnnoticed | src/main.c:366-382 | nor is one that goes on with the rest of another readable genuine record of the same type: the line then reads as that record and passes |
| Tampering.TamperedLog | src/log_local.c:94-104 | after tampering with line k the test reads the other lines as they were and the new one as the lines it falls into, for every value that fits the line buffer |
| Tampering.OnlyTamperedJudged | src/main.c:355-391 | so the verdict on every other line is what it was |
| Tampering.TamperDetected | src/main.c:355-391 | in a log of readable genuine events, for every value that brings no key in and fits the line buffer, exactly the lines the new one falls into are reported (line k alone without newlines), or none when the value is read back as the old command or two named texts collide |
| AsyncQueue.Queue.constructor | src/queue.c:8-26 | an empty open queue of the wanted size, or of 4096 when that is not positive |
| AsyncQueue.Queue.PushLocked | src/queue.c:43-55 | with the mutex held and the wait over, refusal after a shutdown or append to the queued sequence across the wrap-around |
| AsyncQueue.Queue.PopLocked | src/queue.c:78-90 | refusal when empty or shut down, else removal of the oldest event across the wrap-around |
| AsyncQueue.Queue.ShutdownLocked | src/queue.c:95 | only the flag changes |
| AsyncQueue.Queue.CountLocked | src/queue.c:101-106 | the number of queued events |
| AsyncQueue.RingPush | src/queue.c:48-50 | storing at the tail index appends to the ring's sequence |
| AsyncQueue.RingPop | src/queue.c:83-85 | advancing the head index removes the first of the ring's sequence |
| AsyncQueue.Deadline | src/queue.c:63-71 | one carry suffices: nanoseconds below a second and a deadline exactly the timeout after the time of day |
| QueueProtocol.NextInv | src/queue.c:36-106 | every step of any thread keeps mutual exclusion, the waiter sets, first-in-first-out contents, the bound, the two wakeup covers and the shutdown release |
| QueueProtocol.NoLostWakeup | src/queue.c:36-91 | in every run before a shutdown, with the mutex free, sleeping pushers mean free slots are covered by woken pushers and sleeping poppers that events are covered by woken poppers, so they never all sleep |
| QueueProtocol.FirstInFirstOut | src/queue.c:36-91 | in every run the popped sequence is a prefix of the pushed one, the buffer is the rest, and it never exceeds its size |
| QueueProtocol.ShutdownFreezes | src/queue.c:39-46 | once the flag is set no run stores or takes anything and no thread falls asleep |
| QueueProtocol.ShutdownReleases | src/queue.c:93-99 | in every run the broadcasts release every sleeper, and nobody sleeps afterwards |
| QueueProtocol.PushFailsOnlyAfterShutdown | src/queue.c:36-56 | in every run queue_push returns 0, or -1 after a shutdown |
| QueueProtocol.PopWaitsOnce | src/queue.c:58-91 | in every run a thread in queue_pop moves on with each of its own steps, so it waits at most once and needs at most six steps |
| Pipeline.NextInv | src/main.c:28-59 | every action of main thread, worker, signal and network keeps the process invariant |
| Pipeline.ActionsAreSteps | src/main.c:28-54 | every action of the process is, for the queue, a sequence of the protocol's steps |
| Pipeline.Conservation | src/main.c:28-54 | in every reachable state pushed is finished, in flight and queued in order, the log is pushed or lacks its last event, and the ledger got each finished event at most three times, in order |
| Pipeline.PopStartsPosting | src/main.c:41-43 | a popped event gets three attempts |
| Pipeline.KeepsTrying | src/main.c:43-51 | in every run with fewer than three posts of the event, none reported as sent, the worker has the rest of its three attempts left, is not done with the event, and the ledger got the committed ones |
| Pipeline.StopsTrying | src/main.c:43-51 | at the first post reported as sent, or at the third, the worker is done with the event and loops |
| Pipeline.JoinedMeansDelivered | src/main.c:81-95 | when the join of an uninterrupted process returns, the worker has finished with exactly the logged events in order |
| Pipeline.ShutdownHangs | src/main.c:39-40 | with an event queued at the shutdown and the worker not leaving, no continuation lets the worker leave or the join return |
| Pipeline.ShutdownTerminates | src/main.c:39-52 | with an empty queue at the shutdown, or the worker leaving, every continuation has at most 16 actions besides signals, and only a returned join ends it |
| Pipeline.NeverStuck | src/main.c:91-95 | after a shutdown some action other than a signal is always enabled until the join has returned |
| Pipeline.JoinIffEmpty | src/main.c:91-95 | in every reachable shutdown the join can return if and only if the queue is empty or the worker is gone or leaving, and without an interruption the second implies the first |
| Pipeline.HangIsReachable | src/main.c:304-317 | a run from the start to a shutdown with an event still queued and the worker not leaving |
| Pipeline.LossIsReachable | src/main.c:56-59 | a run from the start, with a signal, to a returned join with a logged event still queued and nothing posted |
| Pipeline.EarlyExitFillsUp | src/main.c:35-59 | once the worker is gone or leaving nothing is popped, the queue only grows, and at most its size of events is pushed beyond those popped |
| Pipeline.EarlyExitBlocks | src/main.c:28-33 | a push that finds the queue full with the worker gone or leaving never returns in any continuation, nothing more is logged and no shutdown comes |
| Pipeline.PushReturnsIff | src/queue.c:36-56 | in every reachable state with a push in progress it can return if and only if its event is stored, or the queue has room, or the worker is neither gone nor leaving, and then without any signal or unsignalled wakeup |
| Pipeline.CanReturnStays | src/queue.c:36-56 | a push that can return stays able to under every action until it does |
| Pipeline.BlockIsReachable | src/main.c:56-59 | a run from the start, with a signal, to such a blocked push |
| Pipeline.LateBlockIsReachable | src/main.c:39 | the same with a worker that has counted no events and not left yet |
| Pipeline.CommitsAreProduced | src/main.c:35-54 | in every run only events that were produced reach the ledger |
| Ledger.Chaincode.CreateEvent | chaincode/index.js:27-41 | unparseable or hashless events are refused and change nothing; others are stored as given under their hash |
| Ledger.QueryFindsSubmitted | chaincode/index.js:43-50 | after any genuine submissions a query is answered if and only if the hash is that of a submitted event, and the answer reads as that event, unless two collide |
| Ledger.Chaincode.GetAllEvents | chaincode/index.js:52-71 | the parseable values of the range, in its order |
| Ledger.ListedInOrder | chaincode/index.js:56-67 | the listing goes through the keys in their order, one by one, and leaves out what does not parse |
| Ledger.ListedByKeys | chaincode/index.js:56-67 | of a ledger of submitted events it names exactly the keys, in their order |
| Ledger.Chaincode.GetTotalCount | chaincode/index.js:73-77 | how many values GetAllEvents lists |
| Ledger.Chaincode.PostEvent | gateway/src/handlers.js:19-46 | 400 if and only if there is no body or no hash, 201 if and only if there is one, the gateway is healthy and the chaincode reads a hash in the stringified text, else 422; only 201 changes the ledger, by exactly that text under the hash read |
| Ledger.Answers | gateway/src/handlers.js:19-46 | the same of the handler's specification, and what each answer leaves |
| Ledger.PostStoresReading | src/http_client.c:52-66 | a committed post stores, under its hash, the event the gateway reads from the auditor's text |
| Ledger.PostStoresEvent | gateway/src/handlers.js:19-35 | for any JSON functions, under an unbound hash that is the posted event if and only if the gateway reads the posted event |
| Ledger.UnderstoodIffPlain | gateway/src/handlers.js:19-35 | by RFC 8259 the gateway and the chaincode read back exactly the events without quotes, backslashes and control characters |
| JsonReader.StringifyReads | gateway/src/handlers.js:34-35 | parsing the stringified form of any event gives it back |
| JsonReader.ReadsItselfIffPlain | gateway/src/handlers.js:19-20 | an event is read from the auditor's text if and only if no field has a quote, a backslash or a control character |
| Ledger.StoredIffPlain | gateway/src/handlers.js:19-35 | under an unbound hash a committed post stores the posted event if and only if no field has a quote, a backslash or a control character |
| Ledger.EscapeIsRewritten | gateway/src/handlers.js:19-35 | a genuine event with the command `a\tb` for which the ledger holds another event under its hash |
| Ledger.CommittedIsSubmitted | gateway/src/handlers.js:19-46 | for events both parsers read back, posting them is submitting them, whatever is resent |
| Ledger.SameHashSameEvent | src/event.c:19-27 | two genuine events with one hash are equal, or their hash inputs collide |
| Ledger.LedgerHolds | chaincode/index.js:27-41 | whatever genuine events are submitted, however often, each stays under its hash and nothing else is stored, unless two collide |
| Ledger.ResendChangesNothing | chaincode/index.js:39 | submitting an event whose hash is bound leaves the ledger unchanged, unless two collide |
| Ledger.TotalCountsDistinct | chaincode/index.js:73-77 | the total count is the number of distinct submitted events, unless two collide |
| Ledger.HandleVerify | gateway/src/handlers.js:93-105 | the hashes disputed among the listed ledger entries in order, their number, and the verdict |
| Ledger.DisputedInOrder | gateway/src/handlers.js:97-103 | the disputed hashes come in the order of the events, one for each event that is not accepted |
| Ledger.GatewayAccepts | gateway/src/handlers.js:127-137 | the gateway accepts exactly the events whose hash is the printed digest of their seven values one after the other |
| Ledger.GatewayConfuses | gateway/src/handlers.js:127-137 | characters moved from the end of the command to the start of the user leave its verdict as it was |
| Ledger.GatewayTextShorter | gateway/src/handlers.js:127-137 | the gateway's hash input is strictly shorter than the auditor's for every event |
| Ledger.GatewayDisputes | gateway/src/handlers.js:97-103 | the gateway accepts a genuine event if and only if its two hash inputs collide |
| Ledger.PlainEventDisputed | gateway/src/handlers.js:97-103 | a genuine event with the command `ls` that the gateway disputes, or two named texts collide |
| Ledger.GatewayDisputesAll | gateway/src/handlers.js:97-103 | of any list of genuine events without such collisions every hash is listed as failed |
| Ledger.LedgerDisputed | gateway/src/handlers.js:93-105 | after any genuine submissions the chaincode lists each distinct event once and nothing else, and every one of their hashes is listed as failed, in the order of the keys, collisions aside |
| Delivery.LedgerMatchesLog | src/main.c:28-54 | after any run the ledger is exactly the committed posts, each event listed once, and after an undisturbed complete run these are the logged events, for events whose texts both parsers read back |
| Delivery.RunDisputed | gateway/src/handlers.js:93-105 | after any run of such events the gateway lists every hash of the ledger as failed, collisions aside |
| Delivery.PlainProduced | src/http_client.c:52-66 | the genuine events these two results are about are exactly those without backslashes and control characters |
| ProcMonitor.PidSet.Contains | src/proc_monitor.c:11-16 | true exactly when the pid is in the set |
| ProcMonitor.PidSet.Add | src/proc_monitor.c:18-27 | appends, with an array of 1024 at first and twice the size when full, or does nothing without memory |
| ProcMonitor.Round | src/proc_monitor.c:92-114 | the new snapshot; the pids at increasing positions of the listing, exactly those that the old snapshot lacks; and fewer than twice as many elements copied as held |
| ProcMonitor.FreshPositions | src/proc_monitor.c:98-107 | the specification of a round picks, in order, exactly the positions whose pid is not in the old snapshot |
| ProcMonitor.Start | src/proc_monitor.c:74-118 | the captures over any number of listings: round by round those at increasing positions, exactly the new ones against the snapshot before |
| ProcMonitor.CapturesAreDifferences | src/proc_monitor.c:92-117 | without allocation failures the captures are, round by round, the pids at increasing positions, exactly those that the listing before lacks |
| ProcMonitor.NoNewPidMissed | src/proc_monitor.c:18-27 | whatever allocations fail, every new pid of a round is reported, and what is reported besides was dropped from the snapshot |
| Cmdline.ReadProcCmdline | src/utils.c:65-93 | the buffer's text for any input, or empty without a file: the first size-1 characters of the stream with at most one trailing space removed |
| Cmdline.ArgumentsJoined | src/utils.c:75-90 | a fitting command line comes out as its arguments joined by single spaces, later empty ones included |
| Cmdline.LeadingEmptiesDropped | src/utils.c:78-81 | empty arguments before the first other one leave nothing |
| AuditRecord.SplitMessage | src/audit_monitor.c:64-77 | every message is a list of space-free tokens separated by single spaces |
| AuditRecord.FieldLongExact | src/audit_monitor.c:64-77 | on every message the two searches give the number after `key=` at the start of the first such token but the very first, else after the first `key=` inside any token, else zero |
| AuditRecord.AtolReads | src/audit_monitor.c:76 | the number read is the decimal one that stands there, with a sign or without, after any white space |
| AuditRecord.AtolReadsNothing | src/audit_monitor.c:76 | anything else reads as zero |
| AuditRecord.FieldLongFinds | src/audit_monitor.c:64-77 | when no other token that counts starts with `key=`, the named token's number is returned wherever it stands |
| AuditRecord.FieldLongReads | src/audit_monitor.c:64-77 | in particular every integer printed after `key=` is read back, negative ones included |
| AuditRecord.FieldLongMissing | src/audit_monitor.c:68-72 | a key that starts no token reads as zero if and only if `key=` occurs in no token or the number after its first occurrence is zero |
| AuditRecord.ParentTakenForPid | src/audit_monitor.c:68-72 | a record with ppid=7 and no pid for which the pid reads as 7 |
| AuditRecord.ArgumentTakenForPid | src/audit_monitor.c:68-72 | a record with an argument "pid=5" and no pid for which the pid reads as 5 |
| AuditRecord.FieldStrExact | src/audit_monitor.c:46-62 | on every message the quoted text read starts after the first `key="` inside any token, ends at the next quote, and is cut to the command buffer |
| AuditRecord.FieldStrMissing | src/audit_monitor.c:51-54 | nothing is read if and only if the key does not occur or no quote follows it |
| AuditRecord.FieldStrFinds | src/audit_monitor.c:46-62 | a quoted value comes out whole up to the buffer, spaces included, when its `key="` is the first |

## Left out

- A simpler condition for texts that bring in keys of the parser, in logged fields or tamper values:
  for these `Integrity.VerdictByHash` and `Tampering.OnlyTamperedJudged` say only that the line is
  judged by what is read from it.
- Tampered lines of more than 8190 characters: `Tampering.TamperReplacesCommand` says how they are
  cut, but reading them back in pieces is not followed up.
- White space between tokens, fractions, exponents, nested values and surrogate escapes in `JsonReader`,
  and objects without all eight keys, which the gateway would store and the model refuses: no text
  the auditor prints from a plain event has them.
- The missing terminator at src/main.c:372-373: the stored hash is taken to be the intended
  64-character string.
- Overflow of `int` while parsing digits (over-long numbers, and a return code of -2147483648, which
  the round trip excludes), and of the pid array's capacity: the numbers are unbounded here.
- Failure to open the log for writing, memory exhaustion outside `pid_set_add`, and the `mkdir` of
  `local_log_init`.
- `worker_thread`, `event_callback` and the wait loop of `queue_push` as loops: their interleaving is
  the point, so they are steps of `QueueProtocol` and `Pipeline`; the pause between two attempts is
  part of the next attempt, and the queue count that `cmd_stress` samples is not modelled.
- Runs with `--local-only`, where the queue is not used.
- Wall-clock time: timeouts are wakeups at any moment; only the deadline's arithmetic is modelled.
- SHA-256 itself, OpenSSL, libcurl, Express, gRPC, Fabric's endorsement and ordering, and the order of
  a range query, which is any order of the keys.
- ptrace, fork, /proc access, passwd lookup, the audit socket, daemonizing and pid files.
- The record parsers around `field_long` and `field_str`, which copy what these find into an event;
  option parsing, printed reports, the benchmark's timing statistics, scripts and configuration.
