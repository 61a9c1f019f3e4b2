# OpenMind in Dafny

OpenMind keeps a team's notes and a queue of agent tasks in SQLite, serves them to agents over MCP and HTTP, and
hands tasks to workers on client machines. This project models the parts of it that carry protocols and
invariants, and proves what they promise. `dafny verify dfyconfig.toml` checks everything.

Every SQL statement or transaction is one atomic step, because the connection pool holds a single connection
(internal/store/store.go:34). Clocks, generated ids and secrets, file modification times, and whether a statement,
a read or a save succeeds are parameters of the operations. The secret scanner and redactor are arbitrary functions.

## The parts

| file | models |
|---|---|
| Tasks.dfy | the queue as a history of accepted guarded changes, and what every history keeps |
| TaskStore.dfy | the tasks table and the statements on it, proved against that history |
| WorkerProtocol.dfy | workers, lost requests and replies, heartbeats and clients, interleaved step by step |
| Workers.dfy | the worker process as a class whose methods are steps of that protocol on the real store |
| Timestamps.dfy | RFC 3339 text of instants, and how its order relates to time |
| Notes.dfy, NoteStore.dfy | note normalisation; the versioned store with its filters, history and searches |
| TagFilter.dfy | the `LIKE` test on the JSON text of the tags |
| FullText.dfy | the query expression, and the inverted index that the triggers maintain |
| Auth.dfy, Pinning.dfy | grants, and sessions that are bound to one project |
| Digest.dfy | the context digest: summaries, grouping, truncation, size |
| Splice.dfy | the marked section in CLAUDE.md |
| Sessions.dfy, TokenFile.dfy, Activity.dfy | one-time codes and sessions, the cached token file, the capped activity log |
| Ordering.dfy, Strings.dfy, Wrappers.dfy | `ORDER BY ... LIMIT`, Go string operations, results |

The main theorems are about all runs. The classes keep a ghost history that their methods extend and that `Valid()`
ties to the real fields; the lemmas about the history then hold of every object.

## Where the code does less than it says

Each of these is stated exactly, in the lemma or contract named or in its row below.

- `ClaimTask` promises the oldest queued task. It compares printed times, and hands out a younger task first exactly
  for the inverted pairs of `Timestamps.Inverted`: same second, one trimmed fraction a proper prefix of the other.
  "Newest first" and `since` inherit the same exception.
- Reports belong to the current claim in every run if and only if no two worker processes share both a token name and
  a granted project (`ReportsAreCurrentIff`). That is as long as no request outlives the client that gave it up: one
  late claim gives a stale report that is accepted (`LateClaimBreaksIt`), one late report ends the next run
  (`LateReportEndsNextRun`).
- A tag filter that has no spaces around it is never exact on all stored notes: `go` also finds a note whose only tag
  is `a"go`, and `api_key` one with `api-key`. A filter that ends in a space is exact because it finds nothing
  (`TagIsExactIff`). For a simple tag (without a wildcard, quote, backslash or other character that JSON escapes) it
  finds the tag, every tag that ends in a quote and it, and for a comma every list of two or more; for no other tag
  does that hold of all lists (`SimpleTagFinds`, `TestIsPredictableIff`). A tag with a quote or a backslash and no
  wildcard does not even find itself.
- A session that is bound to a project checks a note before it writes, and not again. If another request moves the
  note to another project in between, the write replaces or deprecates it there (`MovedNoteIsReplaced`,
  `MovedNoteIsDeprecated`). `PutNote` and `DeprecateNote` state exactly when that does not happen.
- A search with terms and a tag filter names a column that both joined tables have; the model returns an error there.
- An export acts as if the one before had not been, if and only if the text is `Splice.IsSpliceable` and no end marker
  stands in the project's name or a note of the one before (`LastExportWinsIff`). Otherwise the rest of that section
  stays in the file, and `RunLeaves` says what any run leaves. An end marker as the very last bytes of the file makes
  the slice run out of range.
- A digest of notes exceeds the documented 25 KB if and only if some type's heading is the first or starts within the
  budget, and leaves no room for the trailer (`RenderBreaksPromiseIff`). The five standard types never do under a
  preamble within the budget; a type name of 25600 letters does.
- After a failed save of a new token the process serves it if and only if the file exists, and was readable then or is
  not now (`UnsavedTokenIsServed`), until another process saves (`NextSaveEndsIt`). A save after an unreadable file
  replaces the file by what the process had cached.

## Model

| member | source | states |
|---|---|---|
| Timestamps.TextOrder | internal/store/tasks.go:91 | text order of two printed UTC times is time order, reversed for exactly the inverted pairs |
| Timestamps.InvertedPairsAreMisordered | internal/store/tasks.go:91 | a pair is inverted if and only if text puts the later instant first |
| Timestamps.TextIsInjective | internal/store/tasks.go:83-91 | different instants print differently, so a stored text stands for one instant |
| Timestamps.TextReadsBack | internal/store/tasks.go:83-91 | a printed time read in the layout of section 5.6 of RFC 3339 is the same time, to the nanosecond |
| Timestamps.EqualDigitsSortAsTime | internal/store/tasks.go:91 | section 5.1 of RFC 3339: with equally many fraction digits, text sorts as time |
| Timestamps.EarlierSecondSortsFirst | internal/store/tasks.go:91 | an earlier second always sorts first |
| Timestamps.HalfSecondSortsEarlier | internal/store/tasks.go:91 | two instants that text orders the wrong way round |
| Tasks.OrdersArePermanent | internal/store/tasks.go:94-268 | over every run, no task disappears and its id, project, title, prompt, assignee, creator and creation time never change |
| Tasks.ReportIsTheLastFinish | internal/store/tasks.go:226-268 | the report is always that of the last accepted finish, made by the assignee; a requeue keeps it |
| Tasks.ReachableFieldsMatchStatus | internal/store/tasks.go:94-268 | with a clock that never goes back, the columns of every reachable row match its status, and its times are in order |
| Tasks.QueueingsAreAccountedFor | internal/store/tasks.go:174-268 | 1 + requeues = finishes + cancels + requeues from running + (1 if active); claims and finishes are bounded accordingly |
| Tasks.ClaimsAreSeparatedByRequeues | internal/store/tasks.go:174-268 | two claims of one task always have a requeue of it between them |
| Tasks.RunningUntilTakenBack | internal/store/tasks.go:174-268 | after a claim and before any report, the task runs if and only if nobody cancelled or requeued it since |
| Tasks.ClosedRowReadsBack | internal/store/tasks.go:238-267 | the second statement of finish and cancel finds the row whatever came between, and reads it as written unless it was requeued |
| Tasks.ClaimsTheOldest | internal/store/tasks.go:172-211 | a claim never passes over a task of an earlier second, and passes over an older one only in an inverted pair |
| Tasks.DrainHandsOutTheEligible | internal/store/tasks.go:172-211 | claiming until nothing is left hands out exactly the eligible tasks and changes no other row; `Store.Drain` is such a run |
| Tasks.DrainIsInOrder | internal/store/tasks.go:172-211 | it hands out different tasks, in nondecreasing created text |
| TaskStore.DefaultTitleIsOneLine | internal/store/tasks.go:104-109 | a title taken from the prompt is one line of at most 81 characters and never empty |
| TaskStore.TitleComesFrom | internal/store/tasks.go:104-109 | a given title is kept; otherwise it is the text before the prompt's first newline, cut to 80 characters |
| TaskStore.Store.CreateTask | internal/store/tasks.go:94-119 | adds one fresh queued row, or fails and changes nothing: project, prompt and assignee are the trimmed ones, creator and a given title are kept, each missing field has its own error, and no credential is in title and prompt together; afterwards the task is eligible for exactly the trimmed assignee's workers with the trimmed project granted |
| TaskStore.FirstAllowed | internal/store/tasks.go:184-195 | the loop picks the first row whose project is granted, or none if none is |
| TaskStore.Store.ClaimTask | internal/store/tasks.go:174-211 | claims the first eligible task by created text, or finds that there is none, or fails; the last two change nothing. The claimed row was queued for this assignee in a granted project, and no such row was created in an earlier second |
| TaskStore.Store.Drain | internal/store/tasks.go:174-211 | repeated claims come to an end, with one claim for every eligible task |
| TaskStore.Store.HeartbeatTask | internal/store/tasks.go:213-222 | stamps the row and answers true exactly for the assignee's running task; a failed statement is an error and changes nothing |
| TaskStore.Store.UpdateFinished | internal/store/tasks.go:226-240 | for the assignee's running task only, stores the status that was sent and the redacted report, whole up to 256 KiB and else cut with a note; every error, of the database too, changes nothing |
| TaskStore.Store.UpdateCancelled | internal/store/tasks.go:245-253 | cancels exactly queued and running tasks |
| TaskStore.Store.UpdateRequeued | internal/store/tasks.go:258-266 | requeues exactly the tasks that are not queued, clears the claim columns and keeps the report |
| TaskStore.Store.FinishTask | internal/store/tasks.go:226-242 | with any requests between its statements: it stores the report exactly for the assignee's running task, then returns the row as stored unless it was requeued meanwhile; a failed re-read reports an error although the report is stored |
| TaskStore.Store.CancelTask | internal/store/tasks.go:245-255 | the same for a cancellation of a queued or running task |
| TaskStore.Store.RequeueTask | internal/store/tasks.go:258-268 | the same for a requeue, after which another worker may have the task already |
| WorkerProtocol.StepKeepsInvariant | cmd/openmind/worker.go:77-140 | every step of a worker, the server or a client keeps the protocol invariant |
| WorkerProtocol.ReportsAreForTheCurrentClaim | cmd/openmind/worker.go:77-175 | when no two workers share a name and a granted project, in every interleaving a report belongs to the task's latest claim, and is accepted if and only if nobody cancelled or requeued since |
| WorkerProtocol.ReportsAreCurrentIff | cmd/openmind/worker.go:77-175 | for any set of workers: no reachable report is stale, and none that is stale is accepted, if and only if no two workers share a name and a granted project |
| WorkerProtocol.StoppedRunsAreRefused | cmd/openmind/worker.go:121-165 | under the same condition, a run that a heartbeat stopped reports a failure, and that report is never accepted |
| WorkerProtocol.StoppedIffHeard | cmd/openmind/worker.go:117-140 | as long as an execution lasts, it is marked to be stopped if and only if some heartbeat of it was answered so |
| WorkerProtocol.HeartbeatAnswers | cmd/openmind/worker.go:130-137 | a heartbeat's answer is whether the worker's task runs, assigned to its user |
| WorkerProtocol.ReportsComeFromRuns | cmd/openmind/worker.go:77-175 | along any run of any workers, every accepted report was made by the end of an execution in that run, with its report, and says done if and only if the agent exited cleanly and the run was not told to stop |
| WorkerProtocol.WorkersNeverShareATask | cmd/openmind/worker.go:77-115 | under the same condition, no two workers are ever committed to the same task |
| WorkerProtocol.RivalsBreakIt | cmd/openmind/worker.go:77-140 | any two workers with one name and a common project have a run in which the stale report of the first is accepted |
| WorkerProtocol.LateClaimBreaksIt | cmd/openmind/worker.go:106-115 | any worker has a run in which one claim that it gave up, executed late, lets its stale report be accepted |
| WorkerProtocol.LateReportEndsNextRun | cmd/openmind/worker.go:86-88 | any worker has a run in which a report that it gave up would, executed late, end its next run of the task |
| Workers.Judge | cmd/openmind/worker.go:156-168 | the status is done if and only if nothing stopped the run and the agent exited cleanly; otherwise the note says which of time limit, stop or the agent's error ended it |
| Workers.Conclude | cmd/openmind/worker.go:148-174 | the report is the agent's trimmed output, that note, where the run was, and the working tree if it changed |
| Workers.Process.ServeAsk | cmd/openmind/worker.go:106-115 | a claim request against the store is the protocol's claim step |
| Workers.Process.ServeHeartbeat | cmd/openmind/worker.go:130-137 | a heartbeat against the store is the protocol's heartbeat step |
| Workers.Process.Finish | cmd/openmind/worker.go:148-175 | the end of a run is the protocol's, done if and only if the agent exited cleanly and nothing stopped the run, with a report that says why otherwise |
| Workers.Process.ServeSend | cmd/openmind/worker.go:86-88 | a report against the store is the protocol's report step, accepted exactly if its guard holds |
| Workers.Process.Turn | cmd/openmind/worker.go:77-103 | with nothing lost and nobody in between, one turn finishes the first eligible task, as done if and only if the agent exited cleanly, with the stored report of its run, or finds that there is none |
| Notes.NormalizeReachesNormalForm | internal/note/note.go:71-107 | normalising yields a storable note, and leaves exactly the storable notes unchanged |
| Notes.NormalizeAcceptsIff | internal/note/note.go:71-107 | exactly the notes with text in project, title and body, with no scope or personal, project or team, and with no status or draft, active or deprecated are accepted |
| Notes.NormalizeErrsIff | internal/note/note.go:75-101 | which error a note gets, from its own fields, in the order of the checks |
| Notes.NormalizeByColumn | internal/note/note.go:71-107 | column by column: project, title and body are trimmed, a missing type or scope becomes project, a missing status becomes active, and every tag is trimmed and lower-cased |
| Notes.Draft.NormalizeInPlace | internal/note/note.go:71-107 | the assignments to the shared note make it the normal form, column by column, or stop at the first failing check |
| Notes.CanonicalizeTags | internal/note/note.go:103-105 | the loop overwrites every tag by its trimmed lower-case form |
| NoteStore.RevisionsCountUp | internal/store/store.go:156-222 | over every run, the versions of a note have revisions 1, 2, ... and one creation time |
| NoteStore.ServeAll | internal/store/store.go:154-345 | over any run of puts and of the two steps of deprecations, what the tables hold of every note's versions only grows at the end |
| NoteStore.StoredVersionsOnlyGrow | internal/store/store.go:154-222 | of any two states of one run, the later tables hold the earlier versions unchanged, and more after them |
| NoteStore.UpdateKeepsState | internal/store/store.go:198-221 | the update transaction appends one version, its snapshot key is free, and the index stays a rebuild of the table |
| NoteStore.InsertKeepsState | internal/store/store.go:181-197 | so does the insert for a new note |
| NoteStore.Store.Put | internal/store/store.go:154-222 | commits exactly the next version of the note, or says why not and changes nothing, wherever the database fails. Column by column the version has what was given, cleaned up; it begins a note or follows the row it replaces; title and body are scanned together |
| NoteStore.PutThenList | internal/store/store.go:154-277 | after an accepted put without a status, a list of the project with the default status holds the version unless the page is full, for everybody or, if the note is personal, for its author |
| NoteStore.Store.Get | internal/store/store.go:224-234 | the last committed version, unless it is another author's personal note, or the error when the read fails |
| NoteStore.Store.History | internal/store/store.go:347-367 | all versions but the last, oldest first, or the error when the read fails |
| NoteStore.DeprecateActsOnWhatItRead | internal/store/store.go:334-345 | whatever was committed between its read and its write, Deprecate adds the next version, and everything but its status and body, the author too, is that of the version it read; only a missing author is the last version's. The body is the one that was read, with the reason behind it |
| NoteStore.WhereClause | internal/store/store.go:112-145 | the conditions built for a filter hold of exactly the notes the filter admits |
| NoteStore.SinceErrsOnInvertedPairs | internal/store/store.go:134-137 | the `since` test answers as the instants would, except for exactly the inverted pairs |
| NoteStore.Store.List | internal/store/store.go:268-277 | the notes that the filter means field by field, newest first: none is left out unless the page is full, and then none that is newer than a note on it, in time except for inverted pairs; or the error when the query fails |
| NoteStore.Store.Search | internal/store/store.go:288-332 | without terms it is List; with terms and no tags, the notes that the filter means and whose text has every term, best first, and none left out that is better than one on the page. For one word these are the notes with a word in title, body or tags that starts with it, in any case. With terms and tags the statement is rejected, and any other failure is an error |
| TagFilter.SimpleTagFinds | internal/store/store.go:140-143 | for a simple tag, on all lists of lower-case tags, the test finds the tag, any tag that ends in a quote and it, and for a comma any list of two or more |
| TagFilter.SimpleTagIsExactIff | internal/store/store.go:140-143 | for a simple tag and any such list, the test is membership if and only if the tag is in the list or none of the others is |
| TagFilter.TestIsPredictableIff | internal/store/store.go:140-143 | a tag is found as SimpleTagFinds says on all such lists if and only if it is simple: no quote, backslash, escaped character or wildcard |
| TagFilter.RewrittenTagMissesItself | internal/store/store.go:140-143 | a tag without wildcards but with a quote, a backslash or an escaped character does not find a note with just that tag |
| TagFilter.PlainTagIsFound | internal/store/store.go:140-143 | a tag in which JSON rewrites nothing, with wildcards or without, finds at least what a simple tag would, so itself |
| TagFilter.WildcardFindsNeighbours | internal/store/store.go:140-143 | such a tag also finds every tag that has, in one wildcard's place, any other character that JSON does not rewrite |
| TagFilter.ApiKeyFindsAnotherTag | internal/store/store.go:140-143 | the filter `api_key` returns a note whose only tag is `api-key` |
| TagFilter.SpacedTagFindsNothing | internal/store/store.go:140-143 | a filter tag that ends in a space finds nothing on any stored list, whatever else it holds |
| TagFilter.TagIsExactIff | internal/store/store.go:140-143 | for a tag that is trimmed, or ends in a space, or in which JSON rewrites nothing: the test is membership on all stored lists (trimmed, lower-case) if and only if the tag ends in a space |
| TagFilter.GoFindsAnotherTag | internal/store/store.go:140-143 | the filter `go` returns a note whose only tag is `a"go` |
| TagFilter.TagsReadBack | internal/store/store.go:252-265 | the JSON text of a note's tags reads back as exactly these tags, whatever characters they hold |
| FullText.FieldsSplit | internal/store/store.go:429-432 | a character that is not kept splits a text into the fields before and after it |
| FullText.FieldsAreRuns | internal/store/store.go:429-432 | the fields of a text are exactly its maximal runs of kept characters |
| FullText.CharacterClasses | internal/store/store.go:427-445 | letters of either case, digits and all characters beyond ASCII make words, and dot, dash and underscore join them |
| FullText.TrimJoinersIsTrim | internal/store/store.go:433 | trimming a word takes dots, dashes and underscores from both ends, all of them, and nothing else |
| FullText.ExpressionReadsBack | internal/store/store.go:427-441 | the query expression reads back as exactly its terms, whatever they contain |
| FullText.ExpressionOfWords | internal/store/store.go:427-441 | it is each word in quotes with a star, separated by spaces |
| FullText.FtsQuery | internal/store/store.go:427-441 | the loop builds that expression from the trimmed tokens, and it is empty exactly without tokens |
| FullText.UpdateKeepsIndex | internal/store/store.go:83-86 | the update trigger turns the rebuilt index of the old table into that of the new one |
| FullText.InsertKeepsIndex | internal/store/store.go:77-79 | so does the insert trigger |
| FullText.IndexFindsWhatTextHas | internal/store/store.go:74-86 | the index answers a prefix phrase exactly as a scan of the row's text would |
| FullText.OneWordMatches | internal/store/store.go:288-290 | a row matches a query of one word if and only if a word of its title, body or tags starts with it, in any case |
| FullText.QueryPartsAreAnded | internal/store/store.go:427-441 | a query of several parts matches exactly the rows that match each part |
| FullText.RedisTestFindsRedisTests | internal/store/store.go:288-290 | the documented example: `redis test` finds `Redis tests` |
| Auth.CheckAllows | internal/auth/auth.go:31-44 | the loop grants exactly what some grant covers: everything, the project itself, or the projects below its namespace |
| Auth.GrantsCover | internal/auth/auth.go:31-44 | the star covers every project, a namespace grant exactly what is below the namespace, and a grant without a star exactly the project of that name |
| Pinning.Project | internal/mcpserver/server.go:233-246 | the bound project wins over the requested one, and must be granted |
| Pinning.Get | internal/mcpserver/server.go:248-259 | returns the note if and only if the session may see it, and an error when the read fails |
| Pinning.List | internal/mcpserver/server.go:86-125 | the notes asked for, field by field, of the bound project or else the requested one, that the caller may see, newest first; none left out unless the page is full |
| Pinning.Context | internal/mcpserver/server.go:261-273 | the digest of at most 500 active notes of the project that the caller may see, the newest ones if there are more |
| Pinning.ContextArgsMean | internal/mcpserver/server.go:261-267 | a context call asks for 500 active notes of the project, whatever their type and age |
| Pinning.PinnedSessionIsIsolated | internal/mcpserver/server.go:233-273 | two stores with the same visible notes of the bound project give a pinned session the same get and list answers |
| Pinning.PinnedContextIsIsolated | internal/mcpserver/server.go:261-273 | and the same context text |
| Pinning.SearchFilterMeans | internal/mcpserver/server.go:50-82 | a search looks through the active notes of the project that the caller may see, and shows 20 unless told otherwise |
| Pinning.Search | internal/mcpserver/server.go:50-82 | a search answers a page of the hits in the session's project, in the order of some ranking; for one word and no tags, exactly the notes with a word that starts with it unless the page is full |
| Pinning.PinnedSearchIsIsolated | internal/mcpserver/server.go:50-82 | two such stores give a pinned session's search equally many notes: the same list without terms, and the same notes whenever the hits fit on the page |
| Pinning.WritesElsewhereChangeNoAnswer | internal/mcpserver/server.go:233-273 | no run of commits confined to other projects changes an answer of a pinned session |
| Pinning.StaysInIff | internal/mcpserver/server.go:150-190 | a write is of a project and replaces no note of another if and only if the version is of that project and the note, if there is one, was there in its last committed version |
| Pinning.PutNote | internal/mcpserver/server.go:150-172 | with any requests between its check and its write, a pinned session's put writes a version of its project, under the caller's name, and replaces no note of another project if and only if the note's last version at the write is in the project; in particular if nobody moved it since the check. Title, body, type, scope, tags and source are the given ones, cleaned up, and the note is active |
| Pinning.PutIsListed | internal/mcpserver/server.go:86-172 | what a session puts is on the page when it lists that project next, unless the page is full; a project name with spaces around it is the exception, for it is stored trimmed |
| Pinning.MovedNoteIsReplaced | internal/mcpserver/server.go:150-172 | whatever acceptable put moves the note between the two, the session's put is then accepted and replaces the note of the other project |
| Pinning.DeprecateNote | internal/mcpserver/server.go:178-190 | with any requests between its steps, a pinned session's deprecation acts on a note of its project and keeps it there if and only if the note's last version is in the project both at the read and at the write. The version has all of the one that was read, but for its status and the reason |
| Pinning.MovedNoteIsDeprecated | internal/mcpserver/server.go:178-190 | a note moved before the read is deprecated in the other project, one moved after it is taken from there |
| Digest.SummaryIsFirstTellingLine | internal/digest/digest.go:54-66 | the summary is the first line that is neither blank nor a heading, trimmed and cut to 200 characters |
| Digest.ListingIsStableGrouping | internal/digest/digest.go:18-48 | the full listing keeps the input order within each type and lists every note exactly once |
| Digest.NotesStandUnderTheirTypes | internal/digest/digest.go:35-49 | every note stands under the heading of its type |
| Digest.TypeOrderIsUnique | internal/digest/digest.go:19-31 | the order of types is determined by the notes, not by map iteration |
| Digest.HeadingsAreRanked | internal/digest/digest.go:19-42 | decisions come first, then project, feedback, reference and user notes, then all other types in text order |
| Digest.RenderOpens | internal/digest/digest.go:33-35 | every digest opens with the project and the number of notes |
| Digest.DecimalReadsBack | internal/digest/digest.go:35 | that number is printed in full, without leading zeros |
| Digest.RenderShowsNotes | internal/digest/digest.go:41-49 | when the full listing fits the budget, the digest holds every note's title, id and summary on a line, and the heading of its type |
| Digest.Render | internal/digest/digest.go:18-52 | the loops write the listing up to the first note that would exceed the budget |
| Digest.DigestIsDetermined | internal/digest/digest.go:18-52 | two renderings of the same notes are equal |
| Digest.RenderTruncatesIff | internal/digest/digest.go:44-48 | the output is truncated if and only if there is a note and the full listing exceeds the budget |
| Strings.ByteLenCountsBytes | internal/digest/digest.go:44 | the lengths compared are those of the UTF-8 bytes (section 3 of RFC 3629) |
| Strings.Utf8ReadsBack | internal/digest/digest.go:44 | which read back as the character they stand for |
| Digest.TruncatedDigestIsPrefix | internal/digest/digest.go:44-48 | a truncated digest is a prefix of the listing that ends between two items, and the trailer |
| Digest.RenderIsBounded | internal/digest/digest.go:18-52 | no output exceeds the budget or its preamble by more than one heading and 57 bytes |
| Digest.StandardTypesKeepThePromise | internal/digest/digest.go:13-52 | at most 24647 bytes for the five standard types with a preamble within the budget |
| Digest.RenderBreaksPromiseIff | internal/digest/digest.go:13-52 | for all notes, the output exceeds the documented 25 KB if and only if some heading of the full listing is the first or starts within the budget, and leaves no room for the trailer; without notes, if and only if the preamble does |
| Digest.LongTypeNameBreaksPromise | internal/digest/digest.go:13-52 | one note with a type name of 25600 letters gives such an output |
| Digest.OneTypeKeepsThePromiseIff | internal/digest/digest.go:13-52 | so for notes of one type, the 25 KB hold if and only if preamble, heading and trailer fit |
| Splice.Update | cmd/openmind/main.go:592-604 | the branches compute the specified text or error |
| Splice.SpliceKeepsTheRest | cmd/openmind/main.go:592-604 | all bytes outside the marked part and the byte after it are kept; without markers the whole text is |
| Splice.SpliceFailsIff | cmd/openmind/main.go:592-597 | an export fails if and only if there is a begin marker and no end marker, or the first end marker stands before it or ends the text |
| Splice.LastSpliceWins | cmd/openmind/main.go:592-604 | splicing again acts as the last splice alone, if and only if the text is spliceable and no end marker stands inside the section before |
| Splice.RunLeaves | cmd/openmind/main.go:592-604 | any run of exports leaves the rest of the text around the last section and what followed the inner end markers of the earlier ones |
| Splice.RunOfExportsIsTheLastIff | cmd/openmind/main.go:592-604 | a run of exports leaves what the last one alone would, if and only if the text is spliceable and no earlier section holds an inner end marker |
| Splice.ExportHasNoLeftoverIff | cmd/openmind/main.go:574-583 | every export writes a section from marker to marker, with no end marker inside if and only if none stands in the project's name or a note |
| Splice.LastExportWinsIff | cmd/openmind/main.go:574-604 | the next export acts as if this one had not been, if and only if the text is spliceable and no end marker stands in this one's project name or notes |
| Splice.SpoiledExport | cmd/openmind/main.go:574-604 | one storable note whose body is the end marker, on which that fails for every text and every next section |
| Splice.BuildSection | cmd/openmind/main.go:574-583 | the loop builds that section |
| Splice.SectionShows | cmd/openmind/main.go:574-583 | the section opens with the project and the date, and then has every note's title and whole body, in order |
| Sessions.SweepIsInvisible | internal/httpapi/session.go:40-51 | sweeping changes no later answer |
| Sessions.ExchangeSucceedsIff | internal/httpapi/session.go:53-78 | a code is exchangeable if and only if it was issued at most 60 s ago and never presented since, for whoever asked for it |
| Sessions.ResolveSucceedsIff | internal/httpapi/session.go:64-88 | a token resolves if and only if an accepted exchange made it at most 12 h ago, to the holder of that code |
| Sessions.CodesAreSingleUse | internal/httpapi/session.go:64-78 | over every run a code is accepted at most once |
| Sessions.SessionTable.IssueCode | internal/httpapi/session.go:53-62 | records the code in the ledger, which stands for its holder for the next 60 s, and leaves no expired entry |
| Sessions.SessionTable.TradeCode | internal/httpapi/session.go:64-78 | answers as the ledger does; then the session is live for 12 h and the code is dead |
| Sessions.SessionTable.Resolve | internal/httpapi/session.go:80-88 | answers as the ledger does |
| TokenFile.AnswerIff | internal/auth/auth.go:156-245 | a secret stands for an identity if and only if it was added and its name not revoked since, or it is a static token |
| TokenFile.Compact | internal/auth/auth.go:231-240 | the loop keeps the other names' entries in order in the same array, and removed + kept is the original length |
| TokenFile.File.Load | internal/auth/auth.go:156-173 | whatever the cache held: what it holds afterwards, which is the file's content if it held a content of the file before and can read it |
| TokenFile.File.Resolve | internal/auth/auth.go:182-194 | answers by what Load leaves, and by the ledger of all processes' changes unless an unsaved change is cached under the file's present time |
| TokenFile.File.Add | internal/auth/auth.go:208-223 | appends one entry to the file, and exactly what remains in the cache and the file when the save fails or the file cannot be read |
| TokenFile.File.Revoke | internal/auth/auth.go:226-245 | removes exactly the name's entries and counts them, and exactly what remains when the save fails or the file cannot be read |
| TokenFile.UnsavedTokenIsServed | internal/auth/auth.go:140-223 | after a failed save of a new token the process answers it if and only if the file exists, and was readable then or is not now |
| TokenFile.NextSaveEndsIt | internal/auth/auth.go:140-223 | after the next save by another process it answers by the ledger again |
| TokenFile.UnsavedRevocationHolds | internal/auth/auth.go:140-245 | after a failed save of a revocation the name is gone from the process's answers under the same condition, and else they are the file's |
| TokenFile.AddedTokenWorks | internal/auth/auth.go:140-223 | a token that another process adds works in a running server at once |
| TokenFile.RevokedNameFails | internal/auth/auth.go:140-245 | no secret yields a name that another process revoked, static tokens aside |
| Activity.KeptBounds | internal/store/activity.go:32-78 | after n inserts the log holds at least min(n, 50000) and at most 50499 events |
| Activity.Log.LogActivity | internal/store/activity.go:62-78 | the rows are always the last events, with those bounds between calls; the newest is the given event, with a time and the words of its first 200 characters of detail between single spaces |
| Activity.Log.Activity | internal/store/activity.go:89-134 | the events that the filter means field by field, newest first by id; none left out unless the page is full, and then none newer than one on it; or the error when the query fails. A tail is complete if and only if TailIsCompleteIff says so |
| Activity.TailIsCompleteIff | internal/store/activity.go:89-134 | asking for all events after the last seen id gives all of them if and only if the log still holds them and they are no more than the limit |

## Left out

- SQLite, JSON, YAML, SHA-256 and random secrets: atomic table steps, an explicit JSON text of the tags, a collision-free hash, fresh values as parameters.
- Ranking and snippets: bm25 and `snippet` depend on SQLite internals, so search results are a page in the order of an arbitrary score, and isolation says nothing about which hits a full page shows.
- The secret scanner and the redactor: arbitrary functions.
- `strings.ToLower` beyond ASCII, and the tokenizer's folding of diacritics and its classes of non-ASCII characters.
- Invalid UTF-8: notes and digests are sequences of characters with their UTF-8 lengths; reports and spliced files are sequences of bytes.
- Years beyond 9999 and leap seconds in printed times.
- The worker's endless loop, its timers and its `--once` flag: one step per request, reply or agent exit, taken at any time. The agent run yields an outcome and a report.
- A claim or report request that the server executes after the client has given up on it is no step of the protocol; LateClaimBreaksIt and LateReportEndsNextRun show what one such request does. Late heartbeats are steps.
- Aliasing of the note that Put fills in place and returns: notes are values.
- WorkerProtocol.ReportsAreForTheCurrentClaim: stated of the step system; Workers.Process is the class whose methods are its steps, without threads.
- TagFilter.TagIsExactIff: says nothing of a tag that begins with a space, does not end in one and holds a character that JSON rewrites; such a tag is never stored, and some of them are found inside two neighbouring elements.
- TokenFile.File.Add: a process that saves between this one's load and save is not modelled, nor is the mutex.
- ListTasks and Projects: single queries that select rows or count notes and write nothing, so no invariant rests on them; the ordering and filtering they share with List is proved there.
- ClientStats and File.List: a summary of the activity rows and a sorted copy of the cached entries for the control desk; nothing reads them back.
- ParseTokens and frontmatter parsing: they read the token flag and, on import, Markdown files, and keep nothing. Their results enter the model as the arbitrary static tokens of TokenFile and the arbitrary notes given to Put.
- HTTP routing, the MCP SDK, the REST client, the control desk, deployment and setup commands: plumbing.
