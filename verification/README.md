# A verified model of the stateful core of clawz

This project models, in Dafny, the parts of clawz that keep state or run concurrently, and proves
what they guarantee over every input, every run or every interleaving. `dafny verify dfyconfig.toml`
checks all of it.

* **Room message log** (`MessageTable`, `RoomLog`, `RoomLogTheorems`, `RoomDeletion`, `RoomStore`,
  `Paging`, `Backfill`, `Records`). `RoomRepo::append_message` is a program of separate steps: idempotency
  lookup, `MAX(seq)` read, insert, room update, commit. Any number of calls interleave under
  PostgreSQL's Read Committed level (section 13.2.1 of its manual), with legacy inserts and the
  migration backfill in between, and may fail at any step. `RoomRepo.AppendMessage` is the same
  call without interference, and is proved to be one path of that machine. `Records` adds the
  conversions between gateway records and rows, `Paging` the cursor reader, `Backfill` the data
  statements of the migration, `RoomDeletion` the deletions that cascade to messages.
* **Metrics** (`Histogram`, `HistogramRace`, `Registry`, `RegistryRace`). The first one of each pair
  is the object, one call at a time; the second one interleaves single atomic accesses and critical
  sections of any number of threads. `HistogramOrder` shows which order of the accesses the results
  rest on.
* **Circuit breaker** (`CircuitBreaker`, `BreakerRace`), in the same two forms.
* **Channel pairing** (`Pairing`): memory, file and clock, with writes that may fail.
* **Secrets in JSON** (`Json`, `Base64`, `Secrets`): sealing, opening, and Base64 (section 4 of
  RFC 4648).
* **Setup wizard** (`SetupWizard`): the event log against the session and its file.
* **Poll limiter** (`PollLimiter`) and **version order** (`Versions`).

Objects whose methods update fields are classes with the same fields. Each method is proved against
a function of the old state or of the history, and the lemmas below are about that function.
Random draws, clock readings, environment variables and the success of a write are parameters.

## Where the code is weaker than its documentation

These are results, each with the exact condition under which the promise holds.

* The index on (room, `seq`) is not unique. The numbers of a room are unique if and only if no
  append to it commits after another append has committed since it read its number
  (`RoomLogTheorems.UniqueIffNoOverlap`); a run that repeats a number is
  `RoomStore.OverlapCanDuplicate`. For every page size that is also exactly when each reader can get
  every message (`Paging.ReadersCompleteIff`).
* Each append is followed by its caller's upsert of the room's header. The room shows its newest
  message's time if and only if the last upsert since that message's commit, if any, wrote that time
  (`RoomLogTheorems.ActivityIsNewestIff`; `RoomStore.StaleUpsertWins` is a run of two callers in which
  it does not).
* The backfill inserts a room with the id of its conversation. It fails, changing nothing, if and
  only if some conversation without a linked room has an id that a room already uses
  (`Backfill.SucceedsIff`, and `Backfill.SharedIdIsRefused` for an instance).
* "A single success resets" (the breaker's documentation) holds, until max(1, threshold) newer
  failures are counted, if and only if no failure in flight at the success' reset has already been
  counted up to the threshold (`BreakerRace.SuccessSticksIff`; an instance is
  `BreakerRace.LateFailureOutlivesSuccess`).
* A failed write of the pairing file is ignored, and a code approved during it can be approved again
  after a restart (`Pairing.FileFollowsIff`, `Pairing.ApprovedCodeRevivesIff`). What a restart after
  failed writes leaves is stated for every run by `Pairing.ListedIffSurvivingWord`.
* A message load returns only what is past its cursor if and only if the cursor is at most 2^63 - 1,
  the limit is 0 or the room has no numbered message (`Records.CursorRespectedIff`,
  `Records.OversizedCursorRestarts`).
* All accesses of the metrics are relaxed. The consistency of a rendering rests on an order of these
  accesses that relaxed ordering does not promise (`HistogramOrder.SafeIff`).
* Version components above 2^32 - 1 are dropped (`Versions.PrintedRoundTripIff`).

## Model

| member | source | states |
|---|---|---|
| RoomLog.StepKeepsInv | crates/clawz-core/src/db.rs:1098-1159 | every step of every interleaving (lookup, read, insert, touch, commit, failure, legacy insert, room upsert, backfill) keeps: gapless numbering, both unique indexes, receipts backed by rows, order exactly outside overlapped rooms |
| RoomLog.CommitKeepsOrder | crates/clawz-core/src/db.rs:1120-1156 | a commit that finds the room as it read it extends the order; any other commit repeats a number |
| RoomLogTheorems.GaplessInEveryRun | crates/clawz-core/src/db.rs:1098-1159 | in every reachable state the positive `seq` values of a room are exactly 1 .. max |
| RoomDeletion.RowStaysUnlessDeleted | crates/clawz-core/src/db.rs:507-526 | over every run, deletions included, a committed row with a room stays, up to its parent reference, until its conversation or room is deleted |
| RoomDeletion.DeletedIsGone | crates/clawz-core/src/db.rs:895-901 | and such a deletion takes it away |
| RoomDeletion.ParentsCleared | crates/clawz-core/src/db.rs:692-698 | after a deletion no row refers to a row it removed; every other row and reference is as before |
| RoomDeletion.NoDanglingReference | crates/clawz-core/src/db.rs:692-698 | over every run, deletions included, no row, committed or not, refers to a conversation, a room or a parent that is gone |
| RoomDeletion.OnlyTheseGo | crates/clawz-core/src/db.rs:895-901 | a deletion takes its conversations and rooms and no others |
| RoomDeletion.DeletionWaitsIff | crates/clawz-core/src/db.rs:692-698 | it waits for exactly the transactions whose uncommitted rows refer to what it takes |
| RoomDeletion.TopFallsOnlyByDeletion | crates/clawz-core/src/db.rs:1119-1123 | over every run, deletions included, the highest number of a room falls only when the row that carries it is deleted |
| RoomDeletion.ReceiptIsStoredUnlessDeleted | crates/clawz-core/src/db.rs:1103-1159 | over every run, deletions included, a successful call's id and number are those of a row stored when it succeeded, and ever since unless its conversation or room is deleted |
| RoomLogTheorems.OneRowPerClient | crates/clawz-core/src/db.rs:703-705 | in every interleaving at most one row is stored for a room and a client id |
| RoomLogTheorems.SameClientSameReceipt | crates/clawz-core/src/db.rs:1103-1116 | all successful calls with one room and client id get the same id and number |
| RoomLogTheorems.NonePendingBesideSuccess | crates/clawz-core/src/db.rs:703-705 | in no reachable state does a call hold an uncommitted row while another call with its room and client id has succeeded |
| RoomLogTheorems.LookupDecides | crates/clawz-core/src/db.rs:1103-1116 | when one call commits, another with the same room and client id succeeds if and only if it looks up after that commit, and then with the committed id and number |
| RoomLogTheorems.LoserNeverSucceeds | crates/clawz-core/src/db.rs:1103-1159 | a call that looked up before the other's commit can only fail |
| RoomLogTheorems.OverlappedMeaning | crates/clawz-core/src/db.rs:1119-1156 | the machine's mark on a room means that some append committed over another one |
| RoomLogTheorems.UniqueIffNoOverlap | crates/clawz-core/src/db.rs:702-705 | numbers of a room are unique if and only if no append committed over another |
| RoomLogTheorems.NoOverlapMeansAppendOrder | crates/clawz-core/src/db.rs:1119-1156 | without overlap the i-th append to commit carries number i |
| RoomLogTheorems.ActivityIsNewestIff | crates/clawz-core/src/db.rs:1053-1156 | whatever upserts follow, a room shows the time of the message committed last if and only if the last upsert of its header since that commit, if any, wrote that time |
| RoomLogTheorems.NumbersFit | crates/clawz-core/src/db.rs:1120-1126 | over every run no number stored or about to be stored exceeds 2^63 - 1 |
| RoomLogTheorems.OneLockPerRoom | crates/clawz-core/src/db.rs:1151-1157 | in every reachable state at most one transaction has updated a room's row without having ended |
| RoomLogTheorems.SomeHolderMoves | crates/clawz-core/src/db.rs:1128-1157 | the waits never close a circle: whenever transactions hold new rows of a room, one of them can take its next step without failing |
| RoomLogTheorems.LegacyInsertIff | crates/clawz-core/src/db.rs:1261-1287 | the insert without room, number and client id goes through exactly when the id is new and its conversation and parent are stored |
| RoomStore.StaleUpsertWins | crates/clawz-gateway/src/routes/rooms.rs:229-256 | a run in which two calls append in order, each caller then upserts with its own message's time, in the other order, and the room shows the older time |
| RoomStore.RoomRepo.AppendMessage | crates/clawz-core/src/db.rs:1098-1159 | the uninterrupted call: tables, result and the caller's message afterwards, on every path and error |
| RoomStore.AloneIsAPath | crates/clawz-core/src/db.rs:1098-1159 | the uninterrupted call is one path of the interleaved machine with the same tables and answer, and a call that succeeds takes no failure step on it |
| RoomStore.AppendSucceedsIff | crates/clawz-core/src/db.rs:1098-1159 | an append succeeds if and only if a room is set and either a stored row has its room and client id, or the room's numbers are below 2^63 - 1, the id is new, and conversation, room and any parent are stored |
| RoomStore.NewMessageIsAppended | crates/clawz-core/src/db.rs:1118-1158 | a new message is added with one more than the room's highest number, the room gets its time, and nothing else changes |
| RoomStore.RepeatIsAnswered | crates/clawz-core/src/db.rs:1103-1116 | a repeated message is answered with the id and number of a stored row of its client id, and no table changes |
| RoomStore.FailureChangesNothing | crates/clawz-core/src/db.rs:1098-1159 | a failed append changes no table; a refused insert leaves on the caller's message the number it tried; the missing room has an error of its own |
| RoomStore.RetryIsIdempotent | crates/clawz-core/src/db.rs:1096-1116 | a retry with the same client id returns the first answer and writes nothing |
| RoomStore.OverlapCanDuplicate | crates/clawz-core/src/db.rs:702-705 | a run in which two appends store the same number |
| RoomStore.FindClient | crates/clawz-core/src/db.rs:1103-1112 | the idempotency lookup finds a row with the message's room and client id whenever there is one |
| MessageTable.TopOfOrdered | crates/clawz-core/src/db.rs:1119-1123 | in a room numbered in append order the highest number is the number of sequenced rows |
| MessageTable.BackfillKeepsNumbering | crates/clawz-core/src/db.rs:783-786 | giving rooms to roomless rows changes no room's numbers or their order |
| MessageTable.BackfillKeepsIndexes | crates/clawz-core/src/db.rs:783-786 | and it cannot violate a unique index |
| Paging.ReaderGetsEveryMessageOnce | crates/clawz-core/src/db.rs:1288-1306 | with appends between its pages, a reader of any limit >= 1 holds after each page exactly the rows up to its cursor; a short page means all rows |
| Paging.ReaderStops | crates/clawz-core/src/db.rs:1288-1306 | full pages never outnumber the messages, so the reader terminates |
| Paging.PageOfOrdered | crates/clawz-core/src/db.rs:1295-1299 | any result the query may give is the slice of rows after the cursor |
| Paging.OverlapHidesAMessage | crates/clawz-core/src/db.rs:1295-1299 | after an overlap every reader of limit 1 misses a stored message however many pages it reads |
| Paging.ReadersCompleteIff | crates/clawz-core/src/db.rs:1288-1306 | for every page size: each reader, however far it has read, can still get every stored message if and only if no append to the room committed over another |
| Paging.SomeReaderMisses | crates/clawz-core/src/db.rs:1295-1299 | after an overlap, for every page size, a reader and a stored row that no continued reading ever delivers |
| Paging.SingleRowsIncrease | crates/clawz-core/src/db.rs:1295-1299 | such a reader gets strictly increasing numbers whatever is stored |
| Backfill.Database.RunMigrations | crates/clawz-core/src/db.rs:830-842 | the loop over statements stops at the first refusal and keeps what ran before it |
| Backfill.SucceedsIff | crates/clawz-core/src/db.rs:735-786 | success if and only if no unlinked conversation's id is a room's id; otherwise nothing changes |
| Backfill.NewRoomsFollowConversations | crates/clawz-core/src/db.rs:735-766 | every room a success makes has, column by column, what its conversation says: tenant and title from the metadata, agent, metadata and times |
| Backfill.TenantOfNewRoom | crates/clawz-core/src/db.rs:748-752 | a string at `tenant_id` is the new room's tenant; an absent or null one gives "default" |
| Backfill.LeadersAreSeated | crates/clawz-core/src/db.rs:768-781 | after a success every room's leading agent has a seat as an agent under its id's text |
| Backfill.SharedIdIsRefused | crates/clawz-core/src/db.rs:735-763 | a group room and an unlinked conversation of the same id: refused, nothing changed |
| Backfill.SuccessSettles | crates/clawz-core/src/db.rs:735-786 | success links every conversation, seats every leader, places every message whose conversation has a room, and leaves all other messages, rooms, seats and every room's numbering as they were |
| Backfill.OnlyTheseAppear | crates/clawz-core/src/db.rs:735-781 | a success adds exactly one room per unlinked conversation, led by its agent, and no seat but of leaders that rooms name |
| Backfill.Idempotent | crates/clawz-core/src/db.rs:735-786 | migrating again after a success changes nothing |
| Backfill.SettledIsFixed | crates/clawz-gateway/src/postgres_store.rs:89-136 | a database in which nothing is left to do is a fixed point |
| Records.MessageRoundTripIff | crates/clawz-gateway/src/postgres_store.rs:591-756 | a message record survives the way to its row and back, up to `seq`, exactly when its ids are canonical UUIDs |
| Records.StoredColumns | crates/clawz-gateway/src/postgres_store.rs:720-756 | the columns no record reads back: an agent's message is the assistant's agent text, any other the user's; the parent is the thread if that is a UUID; the target agents are the mentions |
| Records.StoredContent | crates/clawz-gateway/src/postgres_store.rs:720-756 | text, mentions and thread are stored under these names |
| Records.MentionsRead | crates/clawz-gateway/src/postgres_store.rs:591-622 | mentions are read from the content, else from the target agents, else there are none |
| Records.BareRowReads | crates/clawz-gateway/src/postgres_store.rs:591-622 | a row without sender, room and text reads as a user's empty message, and a negative number as 0 |
| Records.AppendRoomMessage | crates/clawz-gateway/src/postgres_store.rs:759-766 | the record returned, and the tables, for every outcome of the append |
| Records.AppendedRecordLoads | crates/clawz-gateway/src/postgres_store.rs:720-786 | a new message's returned record is the caller's with its number, and the stored row loads as that record |
| Records.RepeatedRecord | crates/clawz-gateway/src/postgres_store.rs:759-766 | a repeated client id stores nothing and returns the stored id and number on the caller's content |
| Records.LoadFollowsCursor | crates/clawz-gateway/src/postgres_store.rs:777-786 | in a room numbered in append order a load returns the records that follow the cursor, numbered one by one, as many as the limit or all; none past the end |
| Records.CursorRespectedIff | crates/clawz-gateway/src/postgres_store.rs:777-786 | on every table, a load returns only records past its cursor if and only if the cursor is at most 2^63 - 1, the limit is 0 or the room has no numbered row |
| Records.OversizedCursorRestarts | crates/clawz-gateway/src/postgres_store.rs:777-786 | a room with one message, and a cursor of 2^63 that gets it again |
| Records.ThreadsRoundTrip | crates/clawz-gateway/src/postgres_store.rs:538-580 | side threads survive their JSON form |
| Records.RoomRoundTripIff | crates/clawz-gateway/src/postgres_store.rs:546-657 | a room record survives its row exactly when its id is canonical, a mode is present and the configuration is not JSON null |
| Records.RoomColumns | crates/clawz-gateway/src/postgres_store.rs:624-657 | the columns no room record reads back: only a direct room is linked to the conversation of its id, and its agent is the first leading agent among the participants |
| Records.StoredMetadata | crates/clawz-gateway/src/postgres_store.rs:538-657 | creator, configuration, side threads and the format version are stored under these names |
| Records.StoredThread | crates/clawz-gateway/src/postgres_store.rs:538-544 | the names under which a side thread is stored |
| Records.BareRoomReads | crates/clawz-gateway/src/postgres_store.rs:546-580 | what a room reads as when its metadata say nothing |
| Histogram.HistogramCell.Observe | crates/clawz-core/src/metrics.rs:113-125 | the cells after an observation count the list of values so far, one more |
| Histogram.HistogramCell.PrometheusLines | crates/clawz-core/src/metrics.rs:145-169 | with ascending bounds line i is the number of observations at most bound i; `+Inf` equals the count, modulo 2^64 |
| Histogram.Bucket | crates/clawz-core/src/metrics.rs:116-124 | the bucket admits the value and no earlier one does |
| Histogram.LeIs | crates/clawz-core/src/metrics.rs:113-125 | the comparison is total but for NaN and that of the reals on finite values |
| Histogram.CumulativeIffAscending | crates/clawz-core/src/metrics.rs:113-169 | first-match sums are the plain counts "at most the bound" for all observations, NaN included, if and only if the bounds ascend |
| Histogram.BelowAll | crates/clawz-core/src/metrics.rs:113-125 | every observation is in some bucket |
| Histogram.WrapIsModulo | crates/clawz-core/src/metrics.rs:36-43 | a 64-bit counter shows its increments modulo 2^64 |
| HistogramRace.StepKeepsInv | crates/clawz-core/src/metrics.rs:113-169 | every step of any number of observers and renderers keeps: cells count the completed observations, and each rendering's lines lie between the counts at its start and at its end |
| HistogramRace.TotalIsConserved | crates/clawz-core/src/metrics.rs:113-125 | bucket cells plus observers in flight add up to the total cell in every state reached by sequentially consistent interleaving |
| HistogramRace.RenderIsConsistent | crates/clawz-core/src/metrics.rs:145-169 | under any sequentially consistent interleaving lines never decrease and `+Inf` never exceeds the count |
| HistogramRace.QuietRenderIsExact | crates/clawz-core/src/metrics.rs:145-169 | under any sequentially consistent interleaving, a rendering with no observation in flight is exact, `+Inf` and count included |
| HistogramRace.ObservationCompletes | crates/clawz-core/src/metrics.rs:113-125 | from every reachable state a free thread can complete an observation, counted once |
| HistogramRace.RenderingCompletes | crates/clawz-core/src/metrics.rs:145-169 | from every reachable state a rendering can run to its end with nothing in between |
| HistogramOrder.SafeIff | crates/clawz-core/src/metrics.rs:113-169 | over any bounds, `+Inf` never exceeds the count in any run if and only if observers add to the total before the bucket and renderers load the buckets before the total; every other order has a failing run (cells without overflow) |
| Registry.MetricsRegistry.GetCounter | crates/clawz-core/src/metrics.rs:205-216 | the counter of the name, new and zero only if the name was absent |
| Registry.MetricsRegistry.AddTo | crates/clawz-core/src/metrics.rs:218-224 | the name's counter, and no other, grows, and shows the sum of its increments |
| RegistryRace.HandlesAgree | crates/clawz-core/src/metrics.rs:205-216 | over a run two handles are the same counter exactly when they were asked for by the same name |
| RegistryRace.NoIncrementLost | crates/clawz-core/src/metrics.rs:205-224 | every handle shows the sum of all completed increments of its name modulo 2^64, whoever created it |
| RegistryRace.NamesStay | crates/clawz-core/src/metrics.rs:205-216 | a registered name keeps its counter |
| RegistryRace.AdditionCompletes | crates/clawz-core/src/metrics.rs:205-224 | from every reachable state a new thread can get a name's counter and complete an increment |
| CircuitBreaker.Breaker.CurrentState | crates/clawz-core/src/circuit_breaker.rs:74-87 | the state shown is a function of the timed history of outcomes |
| CircuitBreaker.Breaker.AllowRequest | crates/clawz-core/src/circuit_breaker.rs:89-92 | requests pass unless that function says open |
| CircuitBreaker.Breaker.RecordFailure | crates/clawz-core/src/circuit_breaker.rs:94-101 | the fields keep representing the history although the 32-bit counter wraps |
| CircuitBreaker.Breaker.RecordSuccess | crates/clawz-core/src/circuit_breaker.rs:103-107 | the fields represent the history with the success appended |
| CircuitBreaker.RejectsIff | crates/clawz-core/src/circuit_breaker.rs:74-107 | a request is rejected exactly when the last max(1, threshold) outcomes failed and the latest is younger than the timeout |
| CircuitBreaker.ProbesIff | crates/clawz-core/src/circuit_breaker.rs:74-107 | it is half-open exactly when those outcomes failed and the latest is old enough, and closed in every other case |
| CircuitBreaker.ProbeCycle | crates/clawz-core/src/circuit_breaker.rs:74-107 | from half-open a failed probe rejects for one more timeout and a success closes |
| BreakerRace.TripsAreEarned | crates/clawz-core/src/circuit_breaker.rs:94-107 | in every interleaving a store of state 1 follows max(1, threshold) counter increments without a reset between them |
| BreakerRace.TrippedHasStamp | crates/clawz-core/src/circuit_breaker.rs:74-101 | raw state 1 never stands without a failure time |
| BreakerRace.NeverStuck | crates/clawz-core/src/circuit_breaker.rs:74-101 | once the timeout has passed since the last failure read the clock, no call answers open |
| BreakerRace.QueryAnswers | crates/clawz-core/src/circuit_breaker.rs:74-92 | in every interleaving a query answers closed if and only if no trip stood at its raw load, open if and only if one stood and the last failure time stamped before its second load is younger than the timeout, and half-open otherwise |
| BreakerRace.Recovers | crates/clawz-core/src/circuit_breaker.rs:74-92 | from every reachable tripped state waiting the timeout and asking gets half-open |
| BreakerRace.SuccessSticksIff | crates/clawz-core/src/circuit_breaker.rs:94-107 | through every continuation with fewer than max(1, threshold) newer failures a success leaves raw state 0, if and only if no failure in flight at its reset had been counted up to the threshold |
| BreakerRace.LateFailureTrips | crates/clawz-core/src/circuit_breaker.rs:94-107 | from every reachable state with such a failure, the breaker ends tripped after the success without a single newer failure |
| BreakerRace.EnoughFailuresTrip | crates/clawz-core/src/circuit_breaker.rs:94-107 | the number of newer failures is sharp: after any success that many can trip the breaker |
| BreakerRace.LateFailureOutlivesSuccess | crates/clawz-core/src/circuit_breaker.rs:94-107 | a run in which a failure counted before a success stores state 1 after that success has finished, with no newer failure |
| Pairing.PairingStore.IsAllowed | crates/clawz-gateway/src/channel_pairing.rs:83-106 | the channel's boolean `require_pairing` decides whatever the environment, anything else leaves it to the environment; with pairing required the answer is whether the pair is listed |
| Pairing.SettingDecides | crates/clawz-gateway/src/channel_pairing.rs:83-106 | the same for any list of peers, through the fields of the configuration |
| Pairing.PairingStore.CreateCode | crates/clawz-gateway/src/channel_pairing.rs:108-124 | a pending code for 15 minutes, in memory, and in the file if the write succeeds |
| Pairing.PairingStore.ApproveCode | crates/clawz-gateway/src/channel_pairing.rs:126-145 | success exactly when the code is pending and not expired, with its channel; the code is used up in either case, and only a success writes the file |
| Pairing.PairingStore.RevokePeer | crates/clawz-gateway/src/channel_pairing.rs:156-167 | reports a removal exactly when the pair was listed; takes out that pair and nothing else, and writes the file only then |
| Pairing.StepKeepsConsistent | crates/clawz-gateway/src/channel_pairing.rs:46-167 | a call whose write does not fail keeps: file and memory list the same peers, the file has every pending code, and its extra codes are expired |
| Pairing.RunIsConsistent | crates/clawz-gateway/src/channel_pairing.rs:46-167 | the same after every run with restarts, failing writes and a monotone clock, as soon as the last write attempted did not fail |
| Pairing.FileIsPastMemory | crates/clawz-gateway/src/channel_pairing.rs:46-81 | over every run, whatever writes fail, the file holds what memory held at some earlier point |
| Pairing.RestartChangesNothing | crates/clawz-gateway/src/channel_pairing.rs:46-68 | a restart changes neither who is allowed nor which codes can be approved |
| Pairing.FileFollowsIff | crates/clawz-gateway/src/channel_pairing.rs:70-81 | after a call the file lists memory's peers exactly when the write succeeded or the list did not change |
| Pairing.ApprovedCodeRevivesIff | crates/clawz-gateway/src/channel_pairing.rs:126-145 | an approved code can be approved again after a restart exactly when the write failed |
| Pairing.ListedIffLastWord | crates/clawz-gateway/src/channel_pairing.rs:91-167 | over runs whose restarts find the last write done, the list with duplicates is a set of pairs: listed exactly when the latest approval or revocation of the pair was an approval |
| Pairing.ListedIffSurvivingWord | crates/clawz-gateway/src/channel_pairing.rs:46-167 | over every run, whatever writes fail: listed exactly when the latest approval or revocation of the pair among the calls that survived the restarts was an approval |
| Pairing.AllowedIffSurvivingWord | crates/clawz-gateway/src/channel_pairing.rs:83-167 | over every run, with pairing required a peer is allowed exactly when the latest surviving approval or revocation of it is an approval |
| Pairing.OnlySurvivorsCount | crates/clawz-gateway/src/channel_pairing.rs:46-167 | memory and file are what the surviving calls alone make, where a restart rolls back to the last successful write |
| Pairing.ApprovalsAreCovered | crates/clawz-gateway/src/channel_pairing.rs:108-145 | over runs whose restarts find the last write done, whatever the clock does, approvals plus codes still pending never outnumber codes created |
| Pairing.SurvivingApprovalsAreCovered | crates/clawz-gateway/src/channel_pairing.rs:46-167 | over every run, the same among the calls that survived the restarts |
| Pairing.ApprovedInTime | crates/clawz-gateway/src/channel_pairing.rs:108-145 | over every run each approval comes at most 15 minutes after a creation of that code for that channel |
| Pairing.ApproveSucceedsIff | crates/clawz-gateway/src/channel_pairing.rs:108-145 | over every run an approval succeeds if and only if the last surviving call about its code is a creation at most 15 minutes ago, and it is for that creation's channel |
| Base64.DecodeOfEncode | crates/clawz-gateway/src/secrets.rs:19-34 | decoding undoes encoding for all bytes |
| Base64.EncodeOfDecode | crates/clawz-gateway/src/secrets.rs:99-115 | a text that decodes is the encoding of its bytes: non-canonical texts are refused |
| Base64.AlphabetIs | crates/clawz-gateway/src/secrets.rs:19-34 | the standard alphabet of RFC 4648 in the order of its values, and the padding character |
| Base64.CutKeepsBits | crates/clawz-gateway/src/secrets.rs:19-34 | four symbols carry the 24 bits of their three bytes, most significant first |
| Base64.CutOfShort | crates/clawz-gateway/src/secrets.rs:19-34 | a missing byte counts as zero, with padding for its symbols |
| Secrets.SecretRoundTrip | crates/clawz-gateway/src/secrets.rs:19-34 | one secret opens to itself, whatever prefix it begins with |
| Secrets.SecretStaysSealed | crates/clawz-gateway/src/secrets.rs:99-115 | a secret whose payload the opener's key refuses stays sealed, and differs from the plain text |
| Secrets.RoundTripIff | crates/clawz-gateway/src/secrets.rs:48-97 | opening undoes sealing on every JSON value if and only if the sealer had no key, the keys agree, or the value has no secret; "only if" where the other key refuses at least one payload of that value |
| Secrets.RoundTripOfSecrets | crates/clawz-gateway/src/secrets.rs:48-97 | for any cipher at all, a value comes back if and only if each string under a sensitive key does |
| Secrets.HypothesesMeet | crates/clawz-gateway/src/secrets.rs:13-34 | the hypotheses on the cipher can hold together, for any two different settings |
| Secrets.SealIsExact | crates/clawz-gateway/src/secrets.rs:36-71 | sealing changes nothing but the strings under sensitive keys and seals each once with a nonce of its own |
| Secrets.SensitiveIff | crates/clawz-gateway/src/secrets.rs:36-46 | a key is sensitive if and only if one of five words stands in it, `_key` ends it or it is `authorization`, up to ASCII case |
| Secrets.EverySecretIsSealed | crates/clawz-gateway/src/secrets.rs:19-71 | with the variable set every string under such a key, at any depth, becomes `enc:` and the Base64 form of a nonce of 12 bytes with the string encrypted under it; nothing else changes |
| Secrets.EverySecretIsMarked | crates/clawz-gateway/src/secrets.rs:19-71 | without it each becomes `plain:` and the string |
| Secrets.OpenWithoutCipher | crates/clawz-gateway/src/secrets.rs:99-115 | a text without a prefix is kept, a plain one is what follows its prefix |
| Secrets.OpenWithCipher | crates/clawz-gateway/src/secrets.rs:99-115 | a sealed one is its payload decrypted under its first 12 bytes, if it is Base64 of at least 12 bytes |
| Secrets.UnsealedValueStays | crates/clawz-gateway/src/secrets.rs:73-97 | a value stored before sealing opens to itself under every setting |
| Secrets.SealSensitiveJson | crates/clawz-gateway/src/secrets.rs:48-71 | the recursion that fills maps and lists in loops computes the sealed value of the lemmas |
| Secrets.OpenSensitiveJson | crates/clawz-gateway/src/secrets.rs:73-97 | and the opening one the opened value |
| SetupWizard.SetupStateMachine.ChooseDeployment | crates/clawz-setup/src/state_machine.rs:66-72 | session, file and answer, whether the save succeeds or fails |
| SetupWizard.SetupStateMachine.ChooseInstallStrategy | crates/clawz-setup/src/state_machine.rs:74-80 | session, file and answer |
| SetupWizard.SetupStateMachine.EnterStep | crates/clawz-setup/src/state_machine.rs:91-99 | session, file and answer; a refused step changes nothing |
| SetupWizard.SetupStateMachine.AdvanceStep | crates/clawz-setup/src/state_machine.rs:82-89 | a success moves exactly one phase on |
| SetupWizard.SetupStateMachine.StartOver | crates/clawz-setup/src/state_machine.rs:101-105 | a fresh session of the same platform |
| SetupWizard.SetupStateMachine.AbortSetup | crates/clawz-setup/src/state_machine.rs:107-114 | session, file and answer |
| SetupWizard.SetupStateMachine.CompleteSetup | crates/clawz-setup/src/state_machine.rs:116-124 | both saves and the user configuration may fail; where each failure stops |
| SetupWizard.RunIsSound | crates/clawz-setup/src/state_machine.rs:24-152 | after every run with failing saves and resumes, the session is the replay of its log, the log obeys the grammar, and the file holds a session memory passed through |
| SetupWizard.RefusedIff | crates/clawz-setup/src/state_machine.rs:66-152 | exactly which calls are refused, and with which error: an aborted session takes only resets and aborts, steps after the stack need a deployment, the last step has no next |
| SetupWizard.CallMoves | crates/clawz-setup/src/state_machine.rs:66-135 | a call that is not refused moves the session as its name says, adds one event and keeps the rest |
| SetupWizard.OrderIs | crates/clawz-setup/src/types.rs:56-102 | the eleven steps in order, and the four that need no deployment |
| SetupWizard.ResumeAfterSuccess | crates/clawz-setup/src/state_machine.rs:24-64 | after a call all of whose saves succeed a resume goes on from the session in memory |
| SetupWizard.FileStaysUnsaved | crates/clawz-setup/src/state_machine.rs:137-152 | a call whose saves fail, or a wizard that does not persist, leaves the file as it was |
| SetupWizard.EveryLogIsReachable | crates/clawz-setup/src/state_machine.rs:66-152 | every log of the grammar is the log of some run |
| SetupWizard.LateStepsFollowDeployment | crates/clawz-setup/src/types.rs:56-102 | a step of phase 4 or later comes after a choice of deployment |
| SetupWizard.OnlyAbortsFollowAbort | crates/clawz-setup/src/state_machine.rs:107-135 | only abortions follow an abortion |
| PollLimiter.PollState.Due | crates/clawz-gateway/src/channel_supervisor.rs:24-34 | the map keeps representing the history of checks, and the answer is that history's |
| PollLimiter.GrantedIff | crates/clawz-gateway/src/channel_supervisor.rs:24-34 | a check is granted exactly when its reading is an interval past every reading granted before: stale readings never are |
| PollLimiter.GrantsAreLimited | crates/clawz-gateway/src/channel_supervisor.rs:24-34 | whatever the readings and lock order, a window of length T holds at most floor(T / I) + 1 grants |
| PollLimiter.BoundIsMet | crates/clawz-gateway/src/channel_supervisor.rs:24-34 | for every T and I some history meets that bound |
| PollLimiter.GrantsKeepComing | crates/clawz-gateway/src/channel_supervisor.rs:67-85 | checked at least every d, grants are less than I + d apart |
| PollLimiter.ChannelsAreIndependent | crates/clawz-gateway/src/channel_supervisor.rs:24-34 | checks of other channels change no grant of this one |
| PollLimiter.SupervisorTick | crates/clawz-gateway/src/channel_supervisor.rs:61-110 | a tick checks exactly the enabled records with a positive interval up to the first failing poll, whose interval is used up; it succeeds exactly when a platform is set and no granted poll fails |
| PollLimiter.AskedIff | crates/clawz-gateway/src/channel_supervisor.rs:61-85 | the checks of a tick are those of its enabled records with a positive interval, which is in seconds |
| PollLimiter.DueIff | crates/clawz-gateway/src/channel_supervisor.rs:61-85 | a record is polled exactly when it is one of these and its check is granted |
| PollLimiter.PolledIff | crates/clawz-gateway/src/channel_supervisor.rs:61-110 | the polls of a tick are those of its due records |
| PollLimiter.PolledInOrder | crates/clawz-gateway/src/channel_supervisor.rs:61-110 | and they come in the order of its records |
| PollLimiter.TicksKeepTheInterval | crates/clawz-gateway/src/channel_supervisor.rs:67-85 | ticks keep the hypothesis of the rate limit |
| Versions.VersionGe | crates/clawz-setup/src/spec.rs:404-431 | true exactly when the versions agree with zeros appended or the first is later at the first difference |
| Versions.Trichotomy | crates/clawz-setup/src/spec.rs:418-431 | of equivalent, later, earlier exactly one holds |
| Versions.LaterIsTransitive | crates/clawz-setup/src/spec.rs:418-431 | the order is transitive, strictly if one part is strict |
| Versions.PrintedRoundTripIff | crates/clawz-setup/src/spec.rs:405-417 | parsing inverts dotted printing exactly when all components fit in 32 bits |
| Versions.ParseFirst | crates/clawz-setup/src/spec.rs:405-417 | each piece up to a dot or a dash adds its number, if it has one, in order |
| Versions.ComponentIs | crates/clawz-setup/src/spec.rs:405-417 | a number before anything but a digit counts as that number if it fits in 32 bits; a piece that starts otherwise is skipped |
| Versions.LaterIs | crates/clawz-setup/src/spec.rs:418-431 | the greater component after a common start decides, and zeros at the end do not count |

## Left out

- RenderIsConsistent: holds for sequentially consistent interleavings; reorderings that relaxed
  atomics allow are not modelled, and `HistogramOrder.SafeIff` shows which of them would break it.
- TotalIsConserved: holds for sequentially consistent interleavings, for the same reason.
- GaplessInEveryRun: is about runs without deletions, as are the other results of `RoomLogTheorems`,
  `RoomStore` and `Paging`; what a deletion leaves of rows, numbers and receipts is in `RoomDeletion`.
- Relaxed memory ordering in the other concurrent models: their atomics interleave in some
  sequentially consistent order.
- Observation counts of 2^64 and more in the theorems on rendering under concurrency (the cells
  themselves wrap, and the sequential theorems hold modulo 2^64).
- Overflow panics of debug builds: arithmetic is that of release builds.
- Two migrations at once; schema statements.
- Microsecond rounding of stored times and normalisation of stored JSON.
- Prometheus text layout, floating-point `sum` and `mean`, gauges, `Counter::reset`.
- Concurrent persistence in the pairing store: one call runs at a time, and a write replaces the
  file or leaves it.
- The walk of `open_sensitive_json` on objects with repeated keys: serde_json maps have none.
- AES-GCM, SHA-256, UTF-8 and UUID text grammars: parameters, with the hypotheses stated in
  `Secrets.Sound`, `Secrets.Widening`, `Secrets.SomeRefused` and `Records.Faithful`.
- `SetupStateMachine::session_mut`, real session and configuration file formats, torn writes.
- Pre-release parts of versions: section 11 of Semantic Versioning 2.0.0 is not what the code
  compares by.
- The poller itself: a channel's configuration enters a tick as its interval, a poll as whether it fails.
- Clock and lock acquisition of `due` as separate steps: any readings in any lock order are allowed
  instead, which includes every interleaving.
- Usage tracking, agent rows, the worker's tools and turns, HTTP, command-line and desktop
  front ends, other repositories, and small enumeration tables are left out.
- TurnCoordinator is not part of this model.
