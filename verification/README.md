# Groupware migrator: a verified model

This project models the parts of the migrator whose correctness depends on more than one function at a time,
and proves what they guarantee. `dafny verify dfyconfig.toml` checks all of it.

## The migration run as a protocol

`MigrationProtocol.dfy` is the centre. A run is a long sequence of store and destination calls, each of them
atomic, with nothing atomic about the sequence: has_fingerprint, upsert, record_message, increment_counters,
set_checkpoint. The machine has any number of jobs over one source and any number of workers on each of them (a
queue worker checks nothing before it resumes a job). Every `Work` action is one call of one worker; between any
two calls any worker can crash, jobs can be marked failed by the recovery of stuck jobs, cancelled, set back to
pending for a retry or resumed by a new worker, and the source can grow. `Execute` folds a sequence of actions, so
a lemma about `Execute(Initial(source), acts)` is about every reachable state.

- `LedgerLaws.dfy`: conservation between ledger, counters and destination writes, for every action sequence, with
  any number of workers and any source, even one that rewrites itself; at-most-once writes for sequential runs.
- `RunAccounting.dfy`: what one run counts, where it can stand and what cancellation cuts off.
- `LossBound.dfy`: what a checkpoint and a sync cursor promise. Whatever lies at or before the checkpoints of a
  full-mode job and is not in its ledger was failed on and tolerated, or was passed over by an iterator: an IMAP
  message whose FETCH is refused or empty is skipped without counting as a failure, and the next message yielded
  moves the checkpoint past it. The same bound holds of the sync cursors and all jobs together.
- `LossExample.dfy`: the bound is sharp, and "nothing is lost" holds if and only if `max_errors <= 1` and no iterator
  passes over an item.
- `CompletedRuns.dfy`: what COMPLETED and a published cursor mean for the items of the source.
- `SyncSeries.dfy`: a series of incremental jobs visits each item exactly once, unless it is passed over, as long as
  its runs complete.
- `Progress.dfy`: how runs end. Whatever the environment answers, a run is cancelled exactly when one of the answers
  stopped it before a collection, and fails below its threshold exactly when one raised outside the items; a run that
  nothing disturbs always completes its job, from every reachable state.
- `Cancellation.dfy`: what a stop request, a raise and a refused write leave behind, whatever the others do meanwhile,
  and the exact outcome of a stop that stays requested.
- `Administration.dfy`: creation, recovery of stuck jobs, cancellation and retries of jobs, and the cursors a run gets.
- `MigrationRunner.dfy`: `run` as classes and loops over a mutable store and destination. What the environment answers
  to its calls, stop requests and raises among them, is an input; the state of the protocol after as many answers is
  kept beside the fields (`Linked`), so whatever is proved of histories holds of the rows it leaves.

## The other components

- `Text.dfy`, `TextLaws.dfy`: Python's strip, split, replace, join, comparison, sorting and decimal numbers.
- `Sources.dfy`, `Pop3Laws.dfy`: the IMAP, POP3 and DAV iterators and pending estimates; each resumes with exactly the
  suffix behind the cursor (IMAP: what of it can be fetched), which is how the protocol opens an iterator. What the lines
  of POP3 listings mean is stated by how they are written.
- `ImapQuoting.dfy`, `MailboxPaths.dfy`, `FlagTransport.dfy`: quoted strings (section 4.3 of RFC 3501), LIST
  responses (section 7.2.2 of RFC 3501), the mailboxes created before an append, and flags carried as metadata.
- `Fingerprints.dfy`: the seed strings behind the ledger keys, what equal seeds or equal keys imply, and exactly when
  an item seed names its item.
- `Calendar.dfy`, `Cron.dfy`: the Gregorian calendar to the minute and the skipping search of `cron_next`, shown to
  agree with a scan of every minute and never to exhaust its budget on an expression that can match.
- `IsoTime.dfy`, `Intervals.dfy`, `Scheduler.dfy`: string order of stored times is time order; an interval counted in
  seconds is as many steps of the calendar; a tick fires what is due once.
- `RateLimiter.dfy`, `LimiterHistory.dfy`: the sliding window over whole call histories, exactly when it can be relied
  on, and exactly which attempts are let in.
- `JobManager.dfy`, `JobSignals.dfy`: the bookkeeping of the job manager, its retry chains and its drain, over all
  interleavings, and exactly which runs are told to stop, admitted and tried again.

## Assumptions

- Store calls do not raise; a worker that dies at a store call is a crash. The source, the destination, validation
  and the creation of a destination collection may raise at any call.
- Ids in a collection are distinct and not empty (the connectors take an empty cursor for none), and a source is
  append-only where a statement says so (`SourceOk`, `AppendOnly`); `Rewrite` replaces it by anything at all where it
  does not. An iterator ranges over the listing it saw when opened and may pass over any position of it.
- Append-only is what IMAP promises by ascending uids. A DAV collection is append-only exactly as long as no new id
  sorts before an old one (DavSource.GrowsAtTheEndExactly); an item that appears at or before the cursor is never
  served (DavSource.BehindCursorNeverServed), and the results about cursors say nothing of it.
- All jobs of one system have the same sync identity, so the sync cursors are one map; a resumed job gets the
  request it was created with. The status check and the read of a base job's checkpoints are one step.
- `update_sync_cursors_from_job` writes cursors in the order of their collections, as the checkpoints are read.
- SHA-256 is an uninterpreted function; a lemma that needs it to have no collision says so, and for the two inputs
  concerned only, because no function from all strings to strings of one length is injective.
- The clock is monotone, and the floating-point times of the rate limiter are real numbers. Cron expressions are given
  as parsed parts with positive steps, intervals as a number and a unit. A range with a step ignores its upper end and
  is modelled that way.
- No codec named "imap4-utf-7" exists in the standard library, so decoding a mailbox name returns the name itself.
- In the job manager a future's completion and its callback are one step, handing a run to the executor does not
  raise, and a retry that finds the manager accepting is submitted in the same step.
- `str.lower` and `str.casefold` are parameters.

## Model

| member | source | states |
|---|---|---|
| MigrationProtocol.StepKeepsIdentity | src/groupware_migrator/engine/runner.py:83-366 | no call of a run changes which job, plan, cursors or threshold it works with |
| MigrationProtocol.CollectionStepIsLocal | src/groupware_migrator/engine/runner.py:140-185 | choosing, seeding, opening and advancing a collection touches no counter, ledger or sync cursor, and no checkpoint except the seeded one; advancing may add to what was passed over |
| MigrationProtocol.OtherActionsAreSteady | src/groupware_migrator/engine/state.py:522-567 | recovery, cancellation, retries, new jobs and workers, crashes and source changes leave counters, ledgers, checkpoints, cursors and every worker's place alone |
| LedgerLaws.LedgerMatchesCounter | src/groupware_migrator/engine/runner.py:200-241 | with any number of workers, ledger size is `migrated_count` plus the workers, live or crashed, between insert and increment; equal once all have ended |
| LedgerLaws.UpsertConservation | src/groupware_migrator/engine/runner.py:219-241 | every destination write of a fingerprint is recorded, still in flight, or lost the race to record it |
| LedgerLaws.AtMostOnceUpsert | src/groupware_migrator/engine/runner.py:200-235 | over sequential runs, writes of a fingerprint number at most 1 plus the crashes between its upsert and its record_message, for any source order or replay |
| RunAccounting.EndedRunAccounting | src/groupware_migrator/engine/runner.py:133-352 | an ended run counted each item it pulled once; COMPLETED means fewer failures than the threshold and every listing pulled or passed over to its end, a threshold stop exactly as many failures |
| RunAccounting.CancellationCut | src/groupware_migrator/engine/runner.py:140-147 | a cancelled run iterated a proper prefix of its plan to the end and opened none of the rest |
| Cancellation.StopCancels | src/groupware_migrator/engine/runner.py:140-147 | in every history, a worker about to begin a collection whose answer requests a stop changes nothing by that call but its place, and its next call, whatever others did meanwhile, ends the run CANCELLED and leaves ledger, checkpoints, counters and cursors alone |
| Cancellation.StopEndsExactly | src/groupware_migrator/engine/runner.py:137-147 | a run in which no call raises and a stop is requested from some call on always ends, CANCELLED if and only if a collection was left to begin at that call, and COMPLETED otherwise |
| Cancellation.RaiseFails | src/groupware_migrator/engine/runner.py:137-186 | a raise of validation, opening or pulling ends the run FAILED in the same way |
| Cancellation.RefusedWriteCounts | src/groupware_migrator/engine/runner.py:265-289 | a refused write is counted once, in the row and in the run, by nothing else; the run goes on with the next item or stops at `max(max_errors, 1)` failures |
| RunAccounting.AloneCountsTogether | src/groupware_migrator/engine/state.py:886-905 | while one worker works alone the job's counters move exactly with that worker's own |
| LossBound.LostAtMostFailed | src/groupware_migrator/engine/runner.py:182-289 | over every interleaving, crash, failure and resume of a full-mode job, each item at or before its checkpoints that is not in its ledger was failed on and tolerated or passed over by an iterator, so they number at most `failed_count` plus the positions passed over; with `max_errors` at most 1 all of them were passed over |
| LossBound.MissedAtMostFailed | src/groupware_migrator/engine/state.py:1051-1077 | whatever the thresholds, each item at or before a sync cursor that is in no ledger was gone past by some job, so they number at most the failures and passed positions of all jobs together |
| LossBound.MarkPromises | src/groupware_migrator/engine/state.py:954-981 | setting a checkpoint to the item in hand promises exactly one position more |
| LossExample.CompletedRunCanLoseAnItem | src/groupware_migrator/engine/runner.py:246-289 | for every `max_errors` of 2 or more a COMPLETED run can lose an item it failed on, and for every `max_errors` one that the iterator passed over |
| LossExample.NothingLostExactly | src/groupware_migrator/engine/runner.py:133-289 | full-mode jobs lose nothing in any history if and only if `max_errors` is at most 1 and iterators pass over nothing |
| CompletedRuns.CompletedCoversItsPlan | src/groupware_migrator/engine/runner.py:137-309 | COMPLETED on a full-mode job means some run iterated the whole plan and every item it ranged over is in the ledger, among the tolerated failures or passed over |
| CompletedRuns.CompletedMeansEverythingMigrated | src/groupware_migrator/engine/runner.py:137-352 | over a fixed source COMPLETED means every item of every planned collection is in the ledger, apart from tolerated failures (none with `max_errors` at most 1) and what was passed over |
| CompletedRuns.CursorSafety | src/groupware_migrator/engine/state.py:1051-1077 | with `max_errors` at most 1, every item at or before a published sync cursor is in some job's ledger or was passed over by an iterator, through failures and crashes at any call |
| SyncSeries.EachItemVisitedOnce | src/groupware_migrator/engine/runner.py:94-99 | between the runs of a sequential incremental series whose runs complete, the visits of each collection went forward only, up to its cursor, and left out only what was passed over; without that, each position once and in order |
| SyncSeries.CursorsNeverMoveBack | src/groupware_migrator/engine/state.py:1069-1077 | no step of such a series moves a cursor back |
| SyncSeries.CompletedListingsPublished | src/groupware_migrator/engine/runner.py:304-314 | between runs everything a completed run listed lies before the cursor, except for positions passed over |
| Progress.FineRunCompletes | src/groupware_migrator/engine/runner.py:115-314 | every run that is left alone, in which no call raises and no stop is requested, ends after finitely many calls with its job COMPLETED, whatever else the environment answers |
| Progress.EndsExactly | src/groupware_migrator/engine/runner.py:137-366 | whatever the environment answers, after any number of calls a run is being cancelled if and only if one of the answers stopped it before a collection, and failing below its threshold if and only if one raised outside the items |
| Progress.ResumedRunCompletes | src/groupware_migrator/engine/redis_jobs.py:95-104 | the same for every job resumed from every reachable state, cancelled, failed or crashed |
| Progress.ResumeCanComplete | src/groupware_migrator/engine/redis_jobs.py:95-104 | from every reachable state such a run to COMPLETED exists |
| Administration.RecoveryFailsStuckJobs | src/groupware_migrator/engine/state.py:522-542 | after recovery no job is RUNNING: exactly those that were are FAILED, with the rest of their rows as it was, and nothing else has changed |
| Administration.StatusOfOneJob | src/groupware_migrator/engine/state.py:544-567 | cancelling takes exactly the PENDING jobs and a retry sets any job PENDING, each changing one status and nothing else |
| Administration.StartsExactly | src/groupware_migrator/engine/state.py:1051-1067 | a run starts with the cursors it should have, and an incremental one on a base job that is missing or not COMPLETED does not start |
| Administration.CursorsResolvedAtStart | src/groupware_migrator/engine/runner.py:60-66 | in every history each worker uses the cursors that were right when it started: none in full mode, the shared ones, or the checkpoints of a base job that was COMPLETED then |
| MigrationRunner.StateStore.SetJobStatus | src/groupware_migrator/engine/state.py:495-520 | changes the status of one job and nothing else |
| MigrationRunner.StateStore.SetCheckpoint | src/groupware_migrator/engine/state.py:954-966 | inserts or replaces one checkpoint of one job |
| MigrationRunner.StateStore.RecordMessage | src/groupware_migrator/engine/state.py:919-952 | adds the fingerprint once and tells whether it was new |
| MigrationRunner.StateStore.IncrementCounters | src/groupware_migrator/engine/state.py:886-905 | adds to the three counters of one job and changes nothing else |
| MigrationRunner.StateStore.SetSyncCursor | src/groupware_migrator/engine/state.py:1004-1016 | inserts or replaces one sync cursor |
| MigrationRunner.Runner.HandleItem | src/groupware_migrator/engine/runner.py:186-289 | one turn of the item loop is a sequence of protocol steps that ends at the next pull or at the threshold |
| MigrationRunner.Runner.ResumeCursor | src/groupware_migrator/engine/runner.py:151-162 | the job's checkpoint, or else the incremental cursor, is what the iterator resumes from, and in the second case, and only then, it becomes the checkpoint |
| MigrationRunner.Runner.Advance | src/groupware_migrator/connectors/imap.py:334-354 | asking an iterator for its next item goes past any number of positions, each a step that counts nothing, and ends at an item, at the end or with a raise |
| MigrationRunner.Runner.IterateCollection | src/groupware_migrator/engine/runner.py:148-302 | a collection ends read to its end, or with the outer try left because of a raise or the threshold |
| MigrationRunner.Runner.PublishCursors | src/groupware_migrator/engine/state.py:1069-1077 | afterwards the sync cursors are the old ones overridden by the job's checkpoints |
| MigrationRunner.Runner.Run | src/groupware_migrator/engine/runner.py:101-366 | for every stream of answers the run terminates, follows the protocol call by call, reports the row it leaves, accounts for every pulled item, ends CANCELLED if and only if an answer requested a stop before a collection, fails below the threshold if and only if one raised outside the items, moves cursors only when it completed, and leaves a COMPLETED job untouched |
| MigrationRunner.RunKeepsLossBound | src/groupware_migrator/engine/runner.py:83-366 | the loss bound holds of the row that run leaves in the store |
| ImapSource.UidLteOrders | src/groupware_migrator/connectors/imap.py:114-117 | on digit strings the uid comparison is a total preorder |
| ImapSource.UidLteMostlyOrders | src/groupware_migrator/connectors/imap.py:114-117 | on any strings it is reflexive and total, and transitive on three strings unless exactly one of them is not a number |
| ImapSource.UidLteTransitiveExactly | src/groupware_migrator/connectors/imap.py:114-117 | on a set of ids it is transitive if and only if no string that is not a number stands between two numbers whose numeric and string order disagree |
| ImapSource.UidLteNotTransitive | src/groupware_migrator/connectors/imap.py:114-117 | an instance of the exception |
| ImapSource.IterMessages | src/groupware_migrator/connectors/imap.py:319-363 | yields, in order, the messages of the uids behind the cursor that could be fetched, each with the last body and the last head that the answer to its own FETCH contained |
| ImapSource.AvailableExactly | src/groupware_migrator/connectors/imap.py:338-354 | a uid can be fetched if and only if its FETCH succeeds and the last body in the answer is not empty |
| ImapSource.EmptyCursorIsNone | src/groupware_migrator/connectors/imap.py:335 | an empty cursor lets every message through, like a missing one |
| ImapSource.EstimatePending | src/groupware_migrator/connectors/imap.py:280-297 | counts the uids behind the cursor; no estimate without one |
| ImapSource.ResumeIsSuffix | src/groupware_migrator/connectors/imap.py:334-354 | for ascending uids, resuming yields what can be fetched of the messages behind the cursor, so nothing is repeated; it is all of them, and the estimate is right, if and only if all of them can be fetched |
| ImapSource.ServedAgainExactly | src/groupware_migrator/connectors/imap.py:334-354 | once the cursor is at or past a uid, no later listing or FETCH serves it; any other uid some later iteration serves |
| Pop3Source.BuildUidLookup | src/groupware_migrator/connectors/pop3.py:139-151 | the unique-ids by message number; none when the server refuses UIDL |
| Pop3Source.OrderedMessages | src/groupware_migrator/connectors/pop3.py:163-171 | one entry for each numbered LIST line: its number, and its unique-id or else the number |
| Pop3Laws.LookupExactly | src/groupware_migrator/connectors/pop3.py:145-150 | the lookup holds the unique-id of the last line that gives the message one, read as number, white space, id, and nothing for other messages |
| Pop3Laws.ListedExactly | src/groupware_migrator/connectors/pop3.py:163-171 | each LIST line that begins with a message number is one entry, by unique-id or else by number, every other line is none, and order is kept |
| Pop3Laws.SplitOnceExactly | src/groupware_migrator/connectors/pop3.py:147 | splitting a line once gives its first word and what comes after the white space behind it |
| Pop3Source.IterMessages | src/groupware_migrator/connectors/pop3.py:153-189 | only INBOX is served; messages are retrieved by number, from just after the first occurrence of the cursor |
| Pop3Source.EstimatePending | src/groupware_migrator/connectors/pop3.py:111-137 | what is left behind the cursor, all of it when the cursor is unknown |
| Pop3Source.ResumeIsSuffix | src/groupware_migrator/connectors/pop3.py:173-179 | with distinct unique-ids (section 7 of RFC 1939) resuming gives exactly the rest |
| TextLaws.SortStringsSorts | src/groupware_migrator/connectors/dav.py:335-338 | sorting gives an ordered permutation of what the server listed |
| DavSource.IterItems | src/groupware_migrator/connectors/dav.py:330-342 | yields the sorted ids greater than the cursor |
| DavSource.ResumeIsSuffix | src/groupware_migrator/connectors/dav.py:317-342 | with distinct ids resuming gives exactly the rest, and the estimate is its length |
| DavSource.GrowsAtTheEndExactly | src/groupware_migrator/connectors/dav.py:335-342 | new items leave the old listing a prefix of the new one if and only if none of them sorts before an old one |
| DavSource.BehindCursorNeverServed | src/groupware_migrator/connectors/dav.py:339-342 | an item at or before the cursor is never served, in whatever listing it stands |
| ImapQuoting.QuotedForm | src/groupware_migrator/connectors/imap.py:43-45 | the two escaping replaces escape each backslash and quote exactly once |
| ImapQuoting.QuoteRoundTrip | src/groupware_migrator/connectors/imap.py:43-63 | every mailbox name survives quoting and the two sequential unescaping replaces |
| ImapQuoting.SplitFirstToken | src/groupware_migrator/connectors/imap.py:66-85 | the scanning loop computes the first token and the rest as specified |
| ImapQuoting.TokenIsQuotedName | src/groupware_migrator/connectors/imap.py:66-85 | the scan stops at exactly the closing quote of a printed name, whatever follows |
| ImapQuoting.TokenIsAtom | src/groupware_migrator/connectors/imap.py:66-72 | a token without quotes ends at the first space, and what follows is the rest |
| ImapQuoting.UnquotedValue | src/groupware_migrator/connectors/imap.py:57-63 | a value that is not in quotes is read as it stands, without the white space around it |
| ImapQuoting.ListEntryRefused | src/groupware_migrator/connectors/imap.py:88-94 | an entry without an opening or a closing parenthesis is refused |
| ImapQuoting.TooFewTokens | src/groupware_migrator/connectors/imap.py:99-102 | an entry with fewer than two tokens behind the flags is refused |
| ImapQuoting.ListEntryRoundTrip | src/groupware_migrator/connectors/imap.py:88-111 | parsing a printed LIST entry, with each name in quotes or without, gives back its folded flags and, unless they read NIL, its delimiter and mailbox |
| MailboxPaths.MailboxPathParts | src/groupware_migrator/connectors/imap.py:383-390 | the i-th result is the first i + 1 path parts joined by the delimiter |
| MailboxPaths.PartsOfPath | src/groupware_migrator/connectors/imap.py:378-381 | a mailbox name is read as exactly the parts between its slashes |
| MailboxPaths.SlashesDoNotCount | src/groupware_migrator/connectors/imap.py:378-381 | slashes at either end and doubled slashes make no part |
| MailboxPaths.PathsExtend | src/groupware_migrator/connectors/imap.py:378-407 | each path extends the one before it by the delimiter and one part, and the last is the name appended under |
| MailboxPaths.ImapDestination.CreateIfMissing | src/groupware_migrator/connectors/imap.py:392-403 | afterwards the mailbox exists unless the server refused; the inbox is never created |
| MailboxPaths.ImapDestination.EnsureMailbox | src/groupware_migrator/connectors/imap.py:409-419 | unless it raises, the whole path exists and is cached, nothing but the path was created, and a cached name asks the server for nothing |
| MailboxPaths.ImapDestination.AppendMessage | src/groupware_migrator/connectors/imap.py:421-456 | appends under the formatted name, which exists once the mailbox was ensured |
| FlagTransport.FlagsSurvive | src/groupware_migrator/connectors/base.py:48-119 | a set of flags without white space arrives unchanged, and no flags arrive as none |
| FlagTransport.PrintIgnoresOrder | src/groupware_migrator/connectors/base.py:52-53 | the text written depends on the flags, not on their order |
| FlagTransport.BlanksDoNotCount | src/groupware_migrator/connectors/base.py:117-119 | a blank flag text means no flags, and blanks around a text do not matter |
| Fingerprints.NormalizedCore | src/groupware_migrator/engine/idempotency.py:8-12 | white space around a Message-ID, any number of angle brackets and white space inside them are taken off, and the rest put in lower case |
| Fingerprints.NoCore | src/groupware_migrator/engine/idempotency.py:8-12 | brackets and white space alone are no Message-ID |
| Fingerprints.GivenIdDecides | src/groupware_migrator/engine/idempotency.py:26-38 | the given Message-ID names the message however it is wrapped, then the one in the header, and only without either its bytes and source id do |
| Fingerprints.ItemSeedIgnoresBlanks | src/groupware_migrator/engine/idempotency.py:49-52 | white space around collection, id and version does not count, nor the case of the collection |
| Fingerprints.MessageIdSeedUnique | src/groupware_migrator/engine/idempotency.py:32-34 | Message-ID seeds are equal if and only if id and size are |
| Fingerprints.RawSeedUnique | src/groupware_migrator/engine/idempotency.py:35-38 | raw seeds are equal if and only if digest, source hint and size are |
| Fingerprints.ItemSeedParts | src/groupware_migrator/engine/idempotency.py:49-52 | item seeds are equal if and only if their names, payload digests and sizes are |
| Fingerprints.ItemSeedPayload | src/groupware_migrator/engine/idempotency.py:42-53 | equal item seeds have equal payload digest and size |
| Fingerprints.ItemSeedUnique | src/groupware_migrator/engine/idempotency.py:42-53 | with no ":" in the folded collections and no vertical bar in the stripped versions, item seeds are equal if and only if collection, id, version, digest and size are |
| Fingerprints.SeedsNameItemsExactly | src/groupware_migrator/engine/idempotency.py:50-52 | for given collections and versions, no two ids make different items look alike if and only if the collections do not read on from one another, or the versions do not end on one another, or both agree |
| Fingerprints.ItemSeedAmbiguous | src/groupware_migrator/engine/idempotency.py:50-52 | an instance: two items with different collections and ids and one seed |
| Fingerprints.KindsNeverCollide | src/groupware_migrator/engine/idempotency.py:34-52 | the three kinds of seed never coincide |
| Fingerprints.EqualMessageFingerprints | src/groupware_migrator/engine/idempotency.py:26-39 | equal message fingerprints mean equal sizes and either equal Message-IDs or identical bytes from the same source id |
| RateLimiter.LoginRateLimiter.CheckAndRecord | src/groupware_migrator/api/rate_limit.py:25-45 | the in-place update of both dictionaries is the transition of which LimiterHistory.VerdictExactly says, for all three verdicts, when each is given |
| RateLimiter.LoginRateLimiter.ClearAttempts | src/groupware_migrator/api/rate_limit.py:47-51 | forgets the attempts and the lock of one address |
| LimiterHistory.VerdictExactly | src/groupware_migrator/api/rate_limit.py:25-45 | in every history an attempt is told to wait if and only if the lockout counted from the last trip has not run out (or, without one, the clock is below zero, the default of the lookup), and otherwise let in if and only if fewer than `max_attempts` of those accepted since the last clear or trip are later than a window ago, tripping if not |
| LimiterHistory.ClearedIsNew | src/groupware_migrator/api/rate_limit.py:47-51 | after a clear an address is as new |
| RateLimiter.AcceptedAttemptsSpread | src/groupware_migrator/api/rate_limit.py:25-51 | in every history any `max_attempts + 1` successive accepted attempts with no clear between them span the window |
| RateLimiter.GuaranteeExactly | src/groupware_migrator/api/rate_limit.py:25-51 | that holds in all histories if and only if the lockout is at least the window, degenerate configurations aside |
| RateLimiter.ShortLockoutAdmitsTooMany | src/groupware_migrator/api/rate_limit.py:36-41 | a history with too many accepted attempts for every lockout shorter than the window |
| RateLimiter.LockHolds | src/groupware_migrator/api/rate_limit.py:29-45 | until the lockout expires every attempt is refused and changes nothing, whatever other addresses do |
| RateLimiter.AddressesIndependent | src/groupware_migrator/api/rate_limit.py:25-51 | the state of an address depends on its own calls only |
| Calendar.LessIsEarlier | src/groupware_migrator/engine/cron.py:36-74 | comparing date and time field by field is chronological order |
| Calendar.MonthTable | src/groupware_migrator/engine/cron.py:36-72 | how many days of a year lie before each of its months |
| Calendar.KnownMondays | src/groupware_migrator/engine/cron.py:44 | 1 January of year 1 is day 1 and a Monday, and 1 January 2024 is a Monday |
| Calendar.WeekdaysFollow | src/groupware_migrator/engine/cron.py:44 | each day has the weekday after that of the day before, across month ends, leap days and new years |
| Calendar.StepLengths | src/groupware_migrator/engine/cron.py:36-72 | an hour or minute step is exactly that long across month ends, leap days and new years, and fails only at the last minute of 9999 |
| Calendar.LeapWithinEight | src/groupware_migrator/engine/cron.py:42-76 | any eight successive years contain a leap year |
| Cron.MondayIsOne | src/groupware_migrator/engine/cron.py:44 | the two known Mondays have cron day 1 |
| Cron.CronDaysFollow | src/groupware_migrator/engine/cron.py:43-44 | each day has the next cron day, after 6 comes 0, and 0 is the Sunday |
| Cron.PartAdmitsItsValues | src/groupware_migrator/engine/cron.py:9-23 | a part with a step admits its start, or the least value of the field, and every further step; a range what lies in it; a number itself |
| Cron.MatchMeans | src/groupware_migrator/engine/cron.py:46-72 | an expression matches a minute if and only if each field admits its value, with either day field enough when both are given |
| Cron.MatchWithinEightYears | src/groupware_migrator/engine/cron.py:42-76 | a satisfiable expression matches within eight years, also across a century without a leap day |
| Cron.MonthSkipMissesNothing | src/groupware_migrator/engine/cron.py:46-51 | the jump to the next month passes no match |
| Cron.DaySkipMissesNothing | src/groupware_migrator/engine/cron.py:53-64 | the jump to the next day passes no match |
| Cron.HourSkipMissesNothing | src/groupware_migrator/engine/cron.py:66-68 | the jump to the next hour passes no match |
| Cron.BudgetSuffices | src/groupware_migrator/engine/cron.py:42-76 | while a match lies within eight years the iterations made stay below 7000, far under the budget |
| Cron.BudgetNotSpent | src/groupware_migrator/engine/cron.py:42-76 | wherever a search for a satisfiable expression stands, iterations are left |
| Cron.Search | src/groupware_migrator/engine/cron.py:42-76 | the loop returns the least match, runs off the calendar only when there is none, and exhausts its budget only on an expression that never matches |
| Cron.CronNext | src/groupware_migrator/engine/cron.py:26-76 | the least minute after the given one that matches in the sense of Cron.MatchMeans; before 9991 there is one if and only if the expression is satisfiable, less than eight years away; the final raise means that the expression never matches |
| Cron.AgreesWithNaiveScan | src/groupware_migrator/engine/cron.py:36-76 | looking at every minute in turn finds the same time, and finds nothing however long it goes on where the search gives up |
| IsoTime.StringOrderIsTimeOrder | src/groupware_migrator/engine/state.py:1421-1429 | comparing two stored times as strings compares the instants, with or without microseconds |
| IsoTime.PlusSecondsLength | src/groupware_migrator/engine/scheduler.py:75-77 | adding an interval moves the instant by exactly its length, and overflows if and only if the sum lies outside the calendar |
| IsoTime.IsoReads | src/groupware_migrator/engine/scheduler.py:77 | the string has the fields of the time in their places, each reading as its number, with microseconds only when they are not zero |
| Intervals.IntervalIsSteps | src/groupware_migrator/engine/cron.py:85-90 | adding an interval in seconds is going on by so many days, hours, minutes or seconds of the calendar, or back, and one leaves the calendar if and only if the other does |
| Scheduler.NextRunIsLater | src/groupware_migrator/engine/scheduler.py:72-78 | the next run is strictly later if and only if the schedule is a cron one or its interval is positive |
| Scheduler.NextRunAfter | src/groupware_migrator/engine/scheduler.py:72-78 | the time computed is the one the schedule allows, so many days, hours, minutes or seconds of the calendar on or the next matching minute, and there is none if and only if the calendar ends before or no later minute matches |
| Scheduler.DueExactly | src/groupware_migrator/engine/state.py:1421-1429 | a schedule is due if and only if it is active and the instant of its next run is not after the present |
| Scheduler.ScheduleStore.ListDue | src/groupware_migrator/engine/state.py:1421-1429 | exactly the active schedules at or before the given time, each once, in order |
| Scheduler.ScheduleStore.UpdateAfterFire | src/groupware_migrator/engine/state.py:1431-1447 | moves the next run of one schedule |
| Scheduler.SchedulerThread.Fire | src/groupware_migrator/engine/scheduler.py:54-69 | starts the job once and moves the schedule to a next run it allows, or raises and leaves the schedule as it was; once the job has started it raises only for lack of a next run |
| Scheduler.SchedulerThread.Tick | src/groupware_migrator/engine/scheduler.py:48-52 | attempts each due schedule once and no other, and starts, in order, one job for each that did not raise and for some of those that raised afterwards; one that did not raise and moves forward is due no more at the tick's time, and if none raised and all move forward, nothing is |
| JobManager.OneLiveRunPerJob | src/groupware_migrator/engine/background.py:49-72 | in no history does a job have two live runs |
| JobManager.MapsAgree | src/groupware_migrator/engine/background.py:49-72 | in every history the three maps have the same keys, the jobs with a live run |
| JobSignals.SignalledExactly | src/groupware_migrator/engine/background.py:49-66 | in every history the stop event of a live run is set if and only if its job was cancelled while that run was live |
| JobSignals.CancelExactly | src/groupware_migrator/engine/background.py:154-161 | a cancel signals the live run of its job and does nothing else, or without one turns a PENDING job CANCELLED and leaves every other |
| JobSignals.AdmittedExactly | src/groupware_migrator/engine/background.py:49-66 | a submission is admitted, as a first attempt and unsignalled, if and only if work is accepted and the job has no live run; otherwise nothing changes |
| JobSignals.RetriedExactly | src/groupware_migrator/engine/background.py:68-125 | an ended run is forgotten, and a retry planned if and only if it ended without an exception, its job is FAILED and a retry is left, with its delay |
| JobSignals.RetryRunsExactly | src/groupware_migrator/engine/background.py:127-134 | a due retry does nothing once draining, and otherwise sets its job PENDING and runs if and only if the job has no live run |
| JobSignals.DrainingIsFinal | src/groupware_migrator/engine/background.py:174-180 | draining changes nothing but that work is refused, for good |
| JobManager.DrainingOnlyShrinks | src/groupware_migrator/engine/background.py:50-52 | once draining nothing is admitted and live runs only go away |
| JobManager.RetryChains | src/groupware_migrator/engine/background.py:111-134 | each submission makes attempts 0 to k with k at most `max_retries`, each retry after an observed FAILED and its capped backoff, at most 300 seconds per retry allowed |
| JobManager.BackoffValues | src/groupware_migrator/engine/background.py:118 | the delays are 30, 60, 120, 240 and then 300 seconds |
| JobManager.RetriesRunOut | src/groupware_migrator/engine/background.py:111-134 | retries left never grow and each planned retry spends one |
| JobManager.BackgroundJobManager.SubmitRun | src/groupware_migrator/engine/background.py:49-66 | refuses when draining or when the job runs, and otherwise registers the new run in all three maps |
| JobManager.BackgroundJobManager.StartOrResume | src/groupware_migrator/engine/background.py:136-152 | opens a submission unless refused, and says which |
| JobManager.BackgroundJobManager.OnDone | src/groupware_migrator/engine/background.py:68-125 | forgets the run and plans a retry exactly when it ended FAILED without an exception and a retry is left |
| JobManager.BackgroundJobManager.FireTimer | src/groupware_migrator/engine/background.py:127-134 | a due retry sets the job pending and submits it, and does nothing when draining |
| JobManager.BackgroundJobManager.RequestCancel | src/groupware_migrator/engine/background.py:154-161 | the in-place transition of which JobSignals.CancelExactly says what it does, and the result tells whether it signalled a run or cancelled a pending job |
| JobManager.BackgroundJobManager.RunningCount | src/groupware_migrator/engine/background.py:170-172 | is the number of live runs |
| JobManager.BackgroundJobManager.Drain | src/groupware_migrator/engine/background.py:174-186 | returns the runs still live, admits none, and stops early only when none is left |

## Left out

- Dry runs: they set checkpoints and count items without recording them, so a dry-run job is no base for anything here.
- Audit entries, log lines, timestamps, `last_error` and the per-collection counters that only go into the audit log.
- The text of error messages beyond the item they name, and the creation of the job row and its plan.
- EWS and Graph resume: they filter ids over listings ordered by something else, so they do not give a suffix.
- DAV URL building, XML and HTTP; IMAP and POP3 connections. A mailbox that cannot be selected is an iterator that raises.
- Digits outside ASCII, which `isdigit` accepts and `int` may refuse.
- Cron text outside the parsed grammar, and the parsing of cron fields and of interval strings.
- The interleaving of a completion callback with the lock of the job manager, and the moment between the check for draining and the resubmission of a retry.
- Webhooks, mail, metrics, batches, users, schedules' creation and deletion, and `cleanup_old_records`.
- Dict round trips of requests, in which an absent provider or job name comes back as the string "None".
- COMPLETED as a final status: a retry sets a job pending whatever its status was, so no such claim is made.
- Cryptography, beyond naming the digest.
- Fingerprints.ItemSeedPayload: does not say that equal seeds name the same item, which is false in general; Fingerprints.SeedsNameItemsExactly says when it holds.
- ImapSource.IterMessages: does not parse the flags and the date out of the metadata it yields, and a uid listed twice gets the same answer twice, because answers are given by uid.
- FlagTransport.FlagsSurvive: does not cover flags containing white space, which the split would take apart.
- MigrationRunner.Runner.Run: works on an existing job with nobody else at work; several workers are the subject of the protocol.
- MigrationRunner.Runner.HandleItem: does not model failures of the store inside the item's try block, because store calls do not raise.
- MigrationRunner.StateStore.SetJobStatus: does not model the timestamps and the last error written with the status.
- Scheduler.ScheduleStore.UpdateAfterFire: does not model the time of the last run and the id of its job, which nothing here reads.
- MailboxPaths.ImapDestination.AppendMessage: does not model flags, dates and the id the server returns.
- Scheduler.SchedulerThread.Fire: does not say which job id was created, because the job manager hands it out.
