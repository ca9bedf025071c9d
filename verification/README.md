# marimohub: verified models of its stateful core

Dafny models of the parts of marimohub that keep state across steps, failures and chunk boundaries,
with proofs of what they promise. `dafny verify dfyconfig.toml` checks the whole project.

| area | files |
|---|---|
| Background loops on several replicas, their in-flight guard, health and shared lease | `LoopState`, `LoopSystem`, `LoopSafety`, `LoopProgress` |
| Launch-marker protocol: supervisor, whole-log parser, bounded streaming tracker, output tail | `Supervisor`, `LaunchProtocol`, `LaunchTracker`, `OutputTail` |
| CLI credentials and profiles under failing effects and crashes | `Credentials`, `Profiles` |
| Keyset pagination, server and client together, and its cursor | `Pagination`, `Cursor` |
| Codecs: shell quoting, file batches, server-sent events, canonical JSON | `Shell`, `FileBatch`, `SseCollector`, `SseEvents`, `SseLimits`, `CanonicalJson` |
| Bounded concurrency, staleness and time: worker pool, admission cache, device sign-in | `WorkerPool`, `AdmissionCache`, `DeviceLogin` |
| Shared foundations: strings and lines, UTF-8, JSON text and its reader, decimals | `Text`, `Utf8`, `Json`, `JsonReader`, `Decimal`, `Common` |

How the models are built:

- Objects that the source updates in place are classes. Each method is proved equal to a function on
  the old state. The transition systems apply the same functions, and the theorems are about them.
- Concurrency is a transition system. One action is one uninterrupted stretch of code, and a theorem
  holds for every sequence of enabled actions.
- A library call that is not modelled is a function parameter, so a theorem holds for every such
  function that meets the stated condition. Clock readings, scheduler choices, replies of the keyring,
  the file system and the server, and results of loads are inputs.

## Where the code does less than it promises

- A failed `set` or `delete` of a credential can take effect: `atomic_write` reports an error after the
  rename when syncing the directory fails (apps/cli/src/config.rs:225-248).
  `Credentials.FailedSetCanTakeEffect` performs such a set. `Credentials.WriteIs`, promised by both
  methods, says for every reply how the call ends and exactly when the register changes.
- For the same reason a profile that a failed removal puts back can have lost its credential;
  `Profiles.ProfileStore.RemoveProfile` says exactly when.
- The five-second bound of the admission cache holds for entries found in the cache. It does not hold
  for a request that waits for a load, because nothing tests the answer's age
  (packages/api/src/sandboxProxy.ts:198-228). `AdmissionCache.AnswerInTimeExactly` says when such an
  answer is in time. It can fail in two ways. The load joined may simply be slow
  (`AdmissionCache.JoinedSlowLoadAnswersStale`). Or the load was superseded, and `LazyMap` answers with
  whatever entry is stored (packages/core/src/cache.ts:154-160,
  `AdmissionCache.SupersededLoadAnswersStale`); the request's own load succeeded in that case as well.
  `AdmissionCache.SubstitutedExactly` says when the second happens.
- A session or context deadline that does not parse would switch off the other one as well, because
  `Math.min` yields NaN (`AdmissionCache.DeadlinesAreEnforcedExactly`). No present caller can reach this:
  sessions are read through a schema that admits only timestamps (packages/core/src/schema.ts:895), and a
  context expiry must pass the same test (packages/core/src/ports/subjectContext.ts:53-76).
- Numbers are read as doubles. Literals that round to one double, such as 9007199254740993 and
  9007199254740992, share a fingerprint, and a literal too large for a double is written as `null`
  (`CanonicalJson.RoundingMergesBodies`).
- The tracker and the whole-log parser differ on a marker that no newline follows yet: the parser reports
  its event and the tracker waits (`LaunchTracker.UnfinishedLineDiffers`).
  `LaunchTracker.TrackerAgreesWithParser` shows that this is the only difference on one stream.
- `OutputTail` decodes with a decoder that drops a leading byte order mark, so when the cut lands in
  front of U+FEFF the kept tail depends on the chunking (`OutputTail.ByteOrderMarksDependOnChunking`).
  `OutputTail.KeepsLongestSuffixExactly` gives the exact condition.
- An unfinished kernel line that ends in the marker without its last one or two underscores hides the
  marker that follows it (`LaunchProtocol.OverlapHidesTheEvent`). `LaunchProtocol.RoundTripExactly` shows
  that this is the only obstacle.
- A cursor can only be built for characters up to U+00FF, because `btoa` refuses others; `paginate` then
  fails (`Pagination.GreekKeyFails`, with `Pagination.PaginateFailsExactly` as the exact condition). No
  present caller can reach this: all of them sort by timestamps and by generated ids in an ASCII
  alphabet (packages/api/src/routes/projects.ts:459-462, packages/api/src/routes/apps.ts:169-175,
  packages/core/src/ids.ts:34).
- Device sign-in returns to its base interval on a pending reply (`DeviceLogin.IntervalShrinksExactly`).
  Section 3.5 of RFC 8628 has a client that was told to slow down stay slow. The comparison is by analogy:
  this client is slowed down by HTTP 429 and 503 (apps/cli/src/client.rs:849-856), not by `slow_down`.

## Model

| member | source | states |
|---|---|---|
| `LoopSafety.AtMostOneLeaseHolderRuns` | apps/server/src/backgroundLoops.ts:127-168 | In every run, over all replicas, at most one leased attempt is inside `run` before its deadline, and the lease object names it with an expiry that covers that deadline |
| `LoopSafety.UnexpiredLeaseIsOnlyRewrittenByItsHolder` | packages/core/src/services/catalog/MaintenanceLock.ts:46-112 | No action of any run changes an unexpired lease record except one of the attempt that holds it |
| `LoopSafety.AcquiredLeasesAreReleased` | apps/server/src/backgroundLoops.ts:143-168 | Work that acquired a lease and has settled waited for its release to return, or was aborted; once the release has returned without a bucket error the lease object holds no unexpired record of the attempt; release is only issued while not aborted |
| `LoopSafety.WorkStepKeepsLease` | apps/server/src/backgroundLoops.ts:127-168 | Every stretch of an attempt's work, with any reply of the bucket, keeps the lease invariant and writes the object only where no unexpired lease of another holder stands |
| `LoopSafety.RunKeepsLeases` | apps/server/src/backgroundLoops.ts:127-168 | The lease invariant holds in every state of every run |
| `LoopSafety.WorkNeverOverlaps` | apps/server/src/backgroundLoops.ts:170-254 | In every interleaving a loop has at most one attempt with unsettled work, `running` is false only when none is unsettled, and `stalled` implies `running` |
| `LoopSafety.RunKeepsLoops` | apps/server/src/backgroundLoops.ts:170-254 | The guard and counter invariant holds in every state of every run |
| `LoopSafety.StoppedLoopBeginsNothing` | apps/server/src/backgroundLoops.ts:135-141 | After stop, in any continuation, no attempt and no step or `run` body begins |
| `LoopSafety.CountersAreExact` | apps/server/src/backgroundLoops.ts:267-305 | `consecutive_failures` is the length of the trailing run of failed or stalled outcomes, and the timeout count is the number of stalled ones |
| `LoopSafety.StopIsNotAnOutcome` | apps/server/src/backgroundLoops.ts:204-221 | A stop, the end of an attempt that a stop cut short, and a failure after the stop signal change no counter, timestamp or recorded outcome |
| `LoopSafety.RecordedOutcomeIsTheWorks` | apps/server/src/backgroundLoops.ts:182-221 | Over every run, the end of an attempt adds one outcome unless a stop cut it short: a stall if and only if the deadline came first, a failure if and only if the work ended in an error, a success or a skip if and only if it gave a value or nothing; no other action touches the record |
| `LoopSafety.HealthTellsTheHistory` | apps/server/src/backgroundLoops.ts:318-347 | An unstopped loop is reported stalled while work its deadline abandoned is unsettled; `failing` means that the last recorded outcome is a failure, `ok` that it is none |
| `LoopSafety.PunctualLoopIsNeverReportedStalled` | apps/server/src/backgroundLoops.ts:318-347 | With ticks every interval and attempts over before their deadline, no instant of any run reports an unstopped loop stalled |
| `LoopProgress.AttemptBeginsExactly` | apps/server/src/backgroundLoops.ts:240-249 | An attempt begins if and only if a tick finds the loop neither stopped nor guarded |
| `LoopProgress.LeaseIsGrantedExactly` | packages/core/src/services/catalog/MaintenanceLock.ts:46-84 | An undisturbed acquisition is granted if and only if nobody else holds an unexpired lease, and then the object names the attempt |
| `LoopProgress.FreeLeaseRuns` | apps/server/src/backgroundLoops.ts:127-157 | With a free lease an undisturbed attempt acquires it and runs |
| `LoopProgress.SetupDecidesResult` | apps/server/src/backgroundLoops.ts:135-153 | A declined check and a refused lease end the attempt with nothing to do, an error with an error, a stop with the stop |
| `LoopProgress.AbortedBeginsNothing` | apps/server/src/backgroundLoops.ts:133-141 | An aborted attempt begins no step and no `run` |
| `LoopProgress.LeaseEndsWithTheDeadline` | apps/server/src/backgroundLoops.ts:147-147 | The lease is asked for until the attempt's deadline, or for a millisecond if that has passed |
| `LoopProgress.RunDecidesResult` | apps/server/src/backgroundLoops.ts:154-167 | How `run` ends decides the result of the work, and the lease is released if and only if the attempt is not aborted |
| `LoopProgress.ReleaseFreesTheLease` | packages/core/src/services/catalog/MaintenanceLock.ts:92-108 | An undisturbed release leaves the lease free for everyone, and the work settles with the result of `run` |
| `LoopProgress.AbortsExactly` | apps/server/src/backgroundLoops.ts:182-194 | Which actions abort an attempt, and how its verdict is decided |
| `LoopProgress.SilentLoopIsReportedStalled` | apps/server/src/backgroundLoops.ts:318-347 | A loop that ends no attempt for its deadline plus its interval is reported stalled, unless it is stopped |
| `LoopState.LoopRecord.Finish` | apps/server/src/backgroundLoops.ts:195-238 | By the verdict itself: a value or nothing resets the failures, an error without a stop adds one, a deadline adds a failure and a timeout and keeps the guard, and what a stop cut short changes nothing |
| `LaunchProtocol.ParseProtocolText` | packages/compute-commons/src/index.ts:360-380 | The loop equals piecewise parsing: text without marker lines and their events in order |
| `LaunchProtocol.ParseLaunchOutput` | packages/compute-commons/src/index.ts:382-393 | Both streams cleaned; the outcome is the last terminal event, stderr after stdout |
| `LaunchProtocol.OutcomeReadsMembers` | packages/compute-commons/src/index.ts:336-358 | The five terminal event names and their kinds; a missing or negative duration counts as zero |
| `LaunchProtocol.ParseInvertsEmission` | packages/compute-commons/src/index.ts:322-393 | Marker lines injected anywhere, also mid-line, leave exactly the original text and exactly the injected terminal events in order |
| `LaunchProtocol.MarkerFirstExactly` | packages/compute-commons/src/index.ts:322-358 | On its own line a marker is read first if and only if the line so far ends neither in the stem nor in the stem and an underscore |
| `LaunchProtocol.RoundTripExactly` | packages/compute-commons/src/index.ts:219-231 | For kernel output without the marker, parsing inverts the supervisor's emission if and only if no marker follows such an ending |
| `LaunchProtocol.LaunchOutputRoundTrip` | packages/compute-commons/src/index.ts:382-393 | With marker-free streams the cleaned logs are the kernel's output if and only if there is no overlap, and then the outcome is the supervisor's last terminal event |
| `LaunchProtocol.OverlapHidesTheEvent` | packages/compute-commons/src/index.ts:322-358 | Counterexamples for both endings: the event is lost although the kernel never wrote the marker |
| `Supervisor.MembersMeanTheEvent` | packages/compute-commons/src/index.ts:229-290 | The parser's reading of the members that the supervisor writes is the event it meant, and `setup_complete` is no outcome |
| `Supervisor.DecodeReadsEvents` | packages/compute-commons/src/index.ts:229-231 | A JSON reader reads back every event the supervisor writes |
| `Supervisor.EventsComeBackExactly` | packages/compute-commons/src/index.ts:219-393 | Emitted events come back with kind, durations and exit code, in order, with the kernel's output, if and only if no event follows an overlapping line |
| `Supervisor.TrackerFollowsSupervisor` | packages/compute-commons/src/index.ts:432-468 | However the stream is cut, the tracker ends with the last outcome the supervisor meant, and knows that setup completed if and only if the supervisor said so |
| `LaunchTracker.LaunchProtocolTracker.FeedChunk` | packages/compute-commons/src/index.ts:432-457 | One chunk updates carries, last outcome and setup flag as the specification function says |
| `LaunchTracker.TrackerSimulatesScan` | packages/compute-commons/src/index.ts:422-468 | For every interleaving and cutting of two streams, the tracker is the bounded image of an unbounded scan of completed lines |
| `LaunchTracker.TrackerIsChunkingIndependent` | packages/compute-commons/src/index.ts:422-468 | However a stream is cut, the last outcome and setup flag are those of scanning the whole text's complete lines |
| `LaunchTracker.OtherStreamIsIgnored` | packages/compute-commons/src/index.ts:432-457 | With marker-free output on the other stream, however interleaved, the tracker ends as if it had scanned the supervisor's stream alone |
| `LaunchTracker.TrackerAgreesWithParser` | packages/compute-commons/src/index.ts:459-468 | However one stream is cut, the parser reports the event of an unfinished last line, else what the tracker reports; they agree if and only if that line holds no event or repeats the tracker's |
| `LaunchTracker.TrackerAgreesWithLaunchOutput` | packages/compute-commons/src/index.ts:382-393 | The same for both streams as the adapter parses them, with the marker on one of them |
| `LaunchTracker.UnfinishedLineDiffers` | packages/compute-commons/src/index.ts:432-457 | The case in which the two differ |
| `LaunchTracker.CarryBoundIsExact` | packages/compute-commons/src/index.ts:416-457 | The event of a line survives every cutting if and only if its marker begins at most 1024 characters before the line's end |
| `OutputTail.OutputTail.Append` | packages/compute-commons/src/index.ts:549-569 | The in-place append, with its three-bytes-per-unit shortcut and byte cut, equals the specification by longest fitting suffix |
| `OutputTail.CutIsTail` | packages/compute-commons/src/index.ts:558-564 | Skipping continuation bytes from the cut leaves exactly the longest character-aligned suffix that fits |
| `OutputTail.TailIsLongest` | packages/compute-commons/src/index.ts:541-548 | The tail is a suffix, fits the cap, and no longer suffix fits |
| `OutputTail.KeptAfterAppends` | packages/compute-commons/src/index.ts:549-569 | After any appends the text is the longest fitting suffix of everything appended, or that suffix without the mark at its head |
| `OutputTail.KeepsLongestSuffixExactly` | packages/compute-commons/src/index.ts:549-569 | Every chunking of a text keeps its longest fitting suffix if and only if nothing is cut or the cut does not land in front of U+FEFF |
| `OutputTail.NeverExceedsCap` | packages/compute-commons/src/index.ts:549-569 | The cap holds after any appends of any text |
| `OutputTail.ByteOrderMarksDependOnChunking` | packages/compute-commons/src/index.ts:549-569 | Counterexample with U+FEFF |
| `WorkerPool.PoolSize` | packages/compute-commons/src/index.ts:746-751 | At least 1 and at most the requested concurrency and the items; 1 for zero, negative and NaN |
| `WorkerPool.CallsAreOnceAndBounded` | packages/compute-commons/src/index.ts:738-751 | In every state of every interleaving, calls are on items 0, 1, 2, ... once each, at most the pool size are unsettled, and a stored result is that item's value |
| `WorkerPool.MapSettles` | packages/compute-commons/src/index.ts:738-753 | Every run stops within pool plus items steps; it resolves with all results in input order if and only if every call succeeds, rejects otherwise, and skips an item only if every worker failed |
| `WorkerPool.MapWithConcurrency` | packages/compute-commons/src/index.ts:733-753 | For any requested concurrency and any scheduler the call ends, with all values in input order or the reason of a failed call |
| `Credentials.FileReadsBack` | apps/cli/src/config.rs:62-88 | A written file state reads back, and no other account changes |
| `Credentials.CredentialStore.Get` | apps/cli/src/config.rs:90-100 | A returned token is the register's value; nothing is returned only for an empty register or an unreachable keyring without file state; which replies make it fail |
| `Credentials.CredentialStore.Set` | apps/cli/src/config.rs:102-122 | For every reply, how the call ends and exactly when the register takes the token; it succeeds through the file where that rules, else through the keyring, else through the file; other accounts untouched |
| `Credentials.CredentialStore.Delete` | apps/cli/src/config.rs:124-150 | For every reply, how the call ends and exactly when the register is emptied; success leaves no trace with a reachable keyring and a tombstone without |
| `Credentials.FailedSetCanTakeEffect` | apps/cli/src/config.rs:225-248 | Counterexample to "an error changes nothing": a set that returns an error, after which a get returns the new token |
| `Credentials.RegisterIsPossible` | apps/cli/src/config.rs:102-150 | After any history with crashes and late effects, the register holds a value its outcomes allow |
| `Credentials.GetNeverReturnsAnOlderToken` | apps/cli/src/config.rs:390-407 | A returned token is never older than the last successful write |
| `Credentials.CleanHistoryIsExact` | apps/cli/src/config.rs:102-150 | Without late effects and crashes exactly one value is possible: that of the last successful write |
| `Credentials.PairRefinesRegister` | apps/cli/src/config.rs:62-150 | Keyring plus file refine one register: a get returns the last successful set, nothing after a delete, or nothing while the keyring is unreachable without file state; a failed operation changes nothing |
| `Profiles.AccountIsInjective` | apps/cli/src/config.rs:382-384 | Different profiles or URLs never share an account name |
| `Profiles.ProfileStore.SetProfile` | apps/cli/src/config.rs:301-348 | Wherever it stops: other profiles are untouched, the profile at its old URL finds its old or the supplied credential, and at a new URL exactly the supplied one or none; it completes if and only if the URLs are usable and every effect it needs succeeds, and then the profile is at the URL given and the credential of its old one is gone |
| `Profiles.ProfileStore.RemoveProfile` | apps/cli/src/config.rs:350-380 | Wherever it stops, a profile that is still there has lost its credential if and only if the removal took place; it completes if and only if both effects succeed, leaving neither profile nor credential; a failed removal puts profile and current profile back |
| `Profiles.ProfileStore.CompleteBrowserLogin` | apps/cli/src/config.rs:531-575 | As for setting a profile: completion publishes the URL that was signed in to, finds the token there, and drops the credential of the old URL; a profile that changed during sign-in is left alone |
| `Profiles.ProfileStore.DeleteProfileToken` | apps/cli/src/config.rs:582-602 | Only the named profile's own credential at its published URL is removed, and the call completes if and only if that URL was given and the removal succeeds |
| `Profiles.UpdateIsSafe` | apps/cli/src/config.rs:301-348 | The order write, publish, clean up is safe at every cut |
| `Profiles.StoreWritesAreReplies` | apps/cli/src/config.rs:102-150 | Every write of keyring and file, whatever they reply, is a write of the one register that the profile updates assume |
| `Profiles.NoLeftoverCredential` | apps/cli/src/config.rs:301-384 | Over any sequence of interrupted updates, a created or retargeted profile finds what that update supplied or a later update of it wrote, never a leftover |
| `Profiles.TokenlessProfileStaysTokenless` | apps/cli/src/config.rs:301-348 | A profile created or retargeted without a token has none until an update of its own supplies one |
| `Pagination.AfterMatchesComparator` | packages/api/src/pagination.ts:165-171 | The boundary test of a cursor agrees with the sort's comparator |
| `Pagination.SortSorts` | packages/api/src/pagination.ts:108-111 | The sorted list is strictly descending |
| `Pagination.NewestFirst` | packages/api/src/pagination.ts:107-111 | Keys go down, and among equal keys the tiebreaks go strictly down |
| `Pagination.DescendingOrderIsUnique` | packages/api/src/pagination.ts:158-159 | A list has one descending arrangement, so the sorting algorithm does not matter |
| `Pagination.StartSplits` | packages/api/src/pagination.ts:161-173 | An item is past the cursor if and only if its index is at or after the start index |
| `Pagination.PaginateIs` | packages/api/src/pagination.ts:153-183 | A page holds only items past the cursor, and every such item is on it or after its last one |
| `Pagination.PageIsFilled` | packages/api/src/pagination.ts:175-182 | A page takes as many items as its size allows (100 by default, at most 500), and there is a next page if and only if items are left over |
| `Pagination.CursorMeans` | packages/api/src/pagination.ts:127-144 | An absent or empty cursor starts at the top, and any other is a position or an error |
| `Pagination.PaginateFailsExactly` | packages/api/src/pagination.ts:123-183 | A request fails if and only if its cursor is invalid, or another page is needed and the last item of this one cannot be encoded |
| `Pagination.GreekKeyFails` | packages/api/src/pagination.ts:123-125 | A concrete list on which the first request fails |
| `Cursor.AtobInverts` | packages/api/src/pagination.ts:123-144 | Base64 reads back |
| `Cursor.CursorIsFaithful` | packages/api/src/pagination.ts:123-144 | A cursor can be written if and only if no character exceeds U+00FF, is never empty, and reads back its position |
| `Pagination.FetchAll` | apps/cli/src/client.rs:904-941 | With a different list behind every page: concatenated pages strictly descend, an item in all lists is returned when the loop finishes, and the repeated-cursor error never fires; a fixed list is enumerated completely and in order if and only if every page boundary can be encoded |
| `Shell.QuotedListTokenizes` | packages/compute-commons/src/shell.ts:2-4 | A space-joined list of quoted NUL-free strings is split by the shell into exactly that list |
| `Shell.PrefixSetsEnvironment` | packages/compute-commons/src/shell.ts:6-19 | Running the prefixed command is running the command with each variable forced, else inherited, else defaulted |
| `Shell.InvalidNameIsRefused` | packages/compute-commons/src/shell.ts:6-19 | The prefix is refused if and only if some variable name is invalid |
| `Shell.NamesArePosixNames` | packages/compute-commons/src/shell.ts:11-13 | The names allowed are letters, digits and underscores with no digit first |
| `Shell.GitCloneArguments` | packages/compute-commons/src/index.ts:58-64 | No repository, branch or target can add, drop or split an argument |
| `FileBatch.EncodeFileWriteBatch` | packages/compute-kubernetes/src/fileWrites.ts:28-36 | The writer's loop produces the framed batch |
| `FileBatch.CopyContents` | packages/compute-kubernetes/src/fileWrites.ts:57-62 | The inner read loop copies exactly the announced bytes, or reports that they ran out |
| `FileBatch.ReadStream` | packages/compute-kubernetes/src/fileWrites.ts:42-62 | The reader's nested loops equal the recursive reader |
| `FileBatch.BatchReadsBack` | packages/compute-kubernetes/src/fileWrites.ts:28-63 | Reading an encoded batch writes every file to its path, with its bytes or bytes that decode to its text, in order, and accepts if and only if nothing follows |
| `FileBatch.StrictPrefixIsRejected` | packages/compute-kubernetes/src/fileWrites.ts:38-46 | Every strict prefix is rejected and has written at most a cut-off of the files |
| `FileBatch.ExtensionIsRejected` | packages/compute-kubernetes/src/fileWrites.ts:48-51 | Every proper extension is rejected |
| `FileBatch.LineReaderInvertsWriter` | packages/compute-kubernetes/src/fileWrites.ts:15-17 | Scanning a header line by the rules of section 7 of RFC 8259 gives back its path and size |
| `SseCollector.CollectExecOutput` | packages/compute-cloudflare/src/index.ts:75-139 | For every chunking, the collector succeeds if and only if the whole stream is within its limits, ends between lines and reports no error; then each output stream is the data of its own events in order, and success is the flag of the last completion |
| `SseCollector.FailureIsFinal` | packages/compute-cloudflare/src/index.ts:98-128 | A limit or an event that fails on part of a stream fails on the whole |
| `SseCollector.CollectsWhatWasSent` | packages/compute-cloudflare/src/index.ts:98-128 | Lines sent within the limits give the output their payloads stand for |
| `SseEvents.MessageReadsBack` | packages/compute-cloudflare/src/index.ts:108-127 | Output, exit code and error are read as they were written |
| `SseEvents.CommandIsCollected` | packages/compute-cloudflare/src/index.ts:75-139 | A command's messages, sent within the limits, come back as its two outputs and its success; an error message or too much output fails it |
| `SseLimits.LimitsLeaveRoom` | packages/compute-cloudflare/src/index.ts:83-86 | Output that fits is never refused for its framing, however finely it is cut into events |
| `CanonicalJson.SameTextExactlyWhenSameValue` | packages/api/src/idempotency.ts:34-41 | Same canonical text if and only if same value after rounding to doubles, up to member order at every depth, an overflowing number counting as null |
| `CanonicalJson.TextIdentifiesExactBodies` | packages/api/src/idempotency.ts:34-45 | For bodies whose numbers print as written the text neither splits equal nor merges different bodies |
| `CanonicalJson.RoundingMergesBodies` | packages/api/src/idempotency.ts:34-41 | Every body with a number that prints differently, or as null, shares its text with a different body |
| `Json.PrintIsInjective` | packages/api/src/idempotency.ts:35-41 | Different JSON values have different texts |
| `AdmissionCache.Earliest` | packages/api/src/sandboxProxy.ts:213-223 | The expiry is the smallest of the time limit and the finite principal expiries |
| `AdmissionCache.DeadlinesAreEnforcedExactly` | packages/api/src/sandboxProxy.ts:356-364 | Each deadline is enforced if and only if both present deadlines parse |
| `AdmissionCache.DeletedKeyStartsOver` | packages/core/src/cache.ts:146-187 | After a deletion the next caller starts a new load, the load that was running is never stored, and other keys are untouched |
| `AdmissionCache.LazyMap.GetFreshAdmission` | packages/api/src/sandboxProxy.ts:84-95 | An expired entry is deleted; what is found has not expired |
| `AdmissionCache.LoadIsSharedThenStored` | packages/core/src/cache.ts:146-171 | Callers of one key share a load while it runs, and are served its entry once it is stored |
| `AdmissionCache.RunKeeps` | packages/api/src/sandboxProxy.ts:156-243 | The cache, load and request invariant holds in every state of every run |
| `AdmissionCache.SettledHitIsFresh` | packages/api/src/sandboxProxy.ts:156-224 | An entry found settled at time s was loaded for the identical key by a request started after s minus 5000, s lies before every finite principal expiry, and it is no app or preview admission |
| `AdmissionCache.ForwardIsBeforeDeadlines` | packages/api/src/sandboxProxy.ts:230-243 | Every forward is decided before the session and the context deadline, if both parse; so every forward of a run whose loads read only deadlines that parse |
| `AdmissionCache.ForwardedExactly` | packages/api/src/sandboxProxy.ts:196-243 | A resumed request is forwarded, with the entry found or returned, if and only if there is one and it is not past a deadline; the key's entry is dropped if and only if the admission is past a deadline or uncacheable |
| `AdmissionCache.LookUpExactly` | packages/api/src/sandboxProxy.ts:192-198 | A look-up is answered by an unexpired entry, else by the load under way, else by a load it starts |
| `AdmissionCache.ArrivalExactly` | packages/api/src/sandboxProxy.ts:170-178 | A request reads ahead if and only if nothing is cached or under way for its key |
| `AdmissionCache.SessionReadIsRecent` | packages/api/src/sandboxProxy.ts:170-204 | The session read a load uses is the speculative one if there is one less than five seconds old, and else a new one; it is never older than its request |
| `AdmissionCache.AnswerIsTheLoadsUnlessSuperseded` | packages/core/src/cache.ts:146-171 | A request that waits for a load is answered by it, or by an entry for the same key if that load was superseded |
| `AdmissionCache.SubstitutedExactly` | packages/core/src/cache.ts:154-160 | A load answers with another load's entry if and only if, when it returned, it was superseded and its key had an entry; otherwise with what it loaded, which is stored if and only if it was not superseded |
| `AdmissionCache.AnswerInTimeExactly` | packages/api/src/sandboxProxy.ts:196-228 | A request that waited for a load is forwarded with an unexpired admission if and only if it is cacheable, less than five seconds have passed since the load that made it was started, and no principal expiry has passed |
| `AdmissionCache.JoinedSlowLoadAnswersStale` | packages/api/src/sandboxProxy.ts:196-228 | A run in which a request joins a slow load and is forwarded four seconds after the admission expired, with nothing ever deleted |
| `AdmissionCache.QuietAnswersAreTheLoads` | packages/core/src/cache.ts:146-187 | While no resumed request finds its admission expired or uncacheable, every wait is answered by exactly the awaited load, in time if and only if that load was |
| `AdmissionCache.SupersededLoadAnswersStale` | packages/core/src/cache.ts:154-160 | A run in which a superseded load answers with an entry four seconds after its expiry |
| `DeviceLogin.IntervalStaysAboveBase` | apps/cli/src/main.rs:435-443 | Through any mix of replies the interval stays at or above the base |
| `DeviceLogin.ServerTimesAreClamped` | apps/cli/src/main.rs:458-460 | The base interval is the server's within five seconds and a minute, and the code lives ten minutes at most |
| `DeviceLogin.IntervalFollowsReply` | apps/cli/src/main.rs:435-481 | A hint is honoured above the base, a retry or transport error doubles the interval up to a minute, a pending reply resets it |
| `DeviceLogin.PollsAreSpaced` | apps/cli/src/main.rs:445-488 | The k-th poll is sent at least k base intervals after the start, and k polls take less than the lifetime |
| `DeviceLogin.IntervalShrinksExactly` | apps/cli/src/main.rs:474-481 | The three cases in which the interval shrinks, if and only if |
| `DeviceLogin.DeviceLogin` | apps/cli/src/main.rs:445-488 | For every clock and every reply: each poll follows a full wait of the interval in force, none follows a wait cut by the deadline, a request takes no longer than configured or left, the loop ends, and its outcome is that of the last poll |

## Left out

- I/O itself: HTTP, WebSockets, containers, Kubernetes, the keyring and file system appear only as replies.
- Token checks, authentication, suspension, authorization and session services: their results are inputs.
- JWT, JWKS and OAuth handling, cookie signing, hashing and randomness; nonces and holder ids are fresh values.
- The clocks of replicas are one shared clock; skew between replicas is not modelled.
- All leased loops of a run share one lock object, and an unreadable lock record is not modelled.
- The timer and signal internals of `withDeadline`; only how it settles is modelled.
- Metrics, tracing and logging appear only as calls that may throw inside a report.
- Lone surrogates in JavaScript strings; characters are Unicode scalar values.
- `batchByWeight`, zod schemas, OpenAPI, route mounting, the CLI's command tree and output formats.
- The keyring path of systems other than Linux, which uses the keyring alone.
- The rest of `idempotentOperation`: a lookup and a record in a store around the fingerprint.
- Least-recently-used order in `LazyMap`: eviction may remove any entry at any time.
- LoopSafety.PunctualLoopIsNeverReportedStalled: needs a deadline above zero, because an attempt cannot be over before a deadline of zero.
- LaunchTracker.TrackerIsChunkingIndependent: needs every marker within 1024 characters of its line's end, which `LaunchTracker.CarryBoundIsExact` shows to be necessary.
- Credentials.PairRefinesRegister: excludes crashes and errors after taking effect; `Credentials.GetNeverReturnsAnOlderToken` covers those.
- Pagination.FetchAll: needs the items of one list to have pairwise distinguishable positions and a cursor that reads back, as `Cursor` does, and takes `localeCompare` as any total preorder; errors of the transport end the loop and are not modelled.
- CanonicalJson.SameTextExactlyWhenSameValue: begins after a repeated key has kept its last value, and takes reading and printing a double as any function that leaves printed doubles alone.
- LaunchTracker.TrackerAgreesWithLaunchOutput: has events on one stream only; with events on both, the parser puts stderr last and the tracker the later chunk.
- Cursor.CursorIsFaithful: reads padded base64 and compact JSON only, not every spelling that the source's reader accepts.
- FileBatch.BatchReadsBack: needs `json.loads` to read back the end marker and the header lines, as `FileBatch.LineReaderInvertsWriter` does, and creates no directories.
- SseCollector.CollectExecOutput: has no timeout signal, and the wording of an error may depend on the chunking; `JSON.parse` is any classifier, of which `SseEvents` gives one for flat objects.
- Supervisor.EventsComeBackExactly: takes the events as given and does not model the processes that the supervisor watches.
- Supervisor.TrackerFollowsSupervisor: needs marker and event text to fit in 1024 characters, the bound that `LaunchTracker.CarryBoundIsExact` shows to be necessary.
- LoopProgress.LeaseIsGrantedExactly: speaks of an acquisition that nobody disturbs; with others writing, safety is in `LoopSafety`.
- AdmissionCache.QuietAnswersAreTheLoads: one direction only, because a resumed request that deletes its key need not lead to a substituted answer; `AdmissionCache.SubstitutedExactly` is exact per load.
- WorkerPool.MapWithConcurrency: runs on until every worker has stopped, while the source's caller already sees the first failure.
- DeviceLogin.DeviceLogin: durations are unbounded, so saturation of a doubled interval above a minute does not arise.
