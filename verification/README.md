# Music Assistant: verified models

Dafny models of the parts of the Music Assistant server whose behaviour has to hold on every input or in
every interleaving, with proofs. Code that updates state is modelled as classes and loops, proved against
functions or step systems; the promises are lemmas about those.

- `SpdxGrammar`, `SpdxVerdicts`, `SpdxEvaluator`: the license-expression evaluator, which computes while it
  consumes tokens; its verdicts are those of parse trees, and said in the words of the identifiers.
- `Filtergraph`, `GraphText`, `FfmpegCommand`: the compiler from a DSP chain to FFmpeg inputs and a labelled filter
  graph. The graph is interpreted over free signal terms, so the result holds under every meaning of the filters.
  A reader of the text that FFmpeg gets shows that the command means the same.
- `BufferedGenerator`, `BufferedTasks`, `SilenceKeepalive`: producer and consumer tasks around a bounded queue,
  as step systems with one step for each stretch of code between two awaits, and as code that takes these steps.
- `ReleaseVersions`, `ReleaseIssues`, `ReleaseTags`: the next version of four release channels, over runs of releases.
- `Providers`: loading and unloading providers with dependencies.
- `TaskTracking`: tracked tasks and debounced timers.
- `DeferredCommit`, `UpsertMany`: batched commits of many tasks on one connection, and grouped upserts.
- `SourceCache`: the byte-budgeted least-recently-used cache of source images.
- `Lyrics`, `LyricsOrder`, `AudioParts`: normalized lyrics, seeking in multi-part audio, slicing PCM buffers.
- `Barcodes`, `Palette`: canonical barcodes with GTIN check digits (section 7.9 of the GS1 General
  Specifications), and colour palettes with the contrast of success criterion 1.4.3 of WCAG 2.1.
- `MatchItems`, `AlbumEvidence`, `AlbumMatching`, `TrackMatching`, `ArtistOrder`: how albums and tracks of different
  providers are matched; `MatchRules`, `MatchOutcomes`, `CreditRules` say it in the fields of the items. Helpers that depend on Unicode tables, regular expressions or other packages are
  fields of a record of functions, so every result holds for all of them.

Where the code does not do what its text promises, the code is kept and the exact condition is proved:

- `upsert_many` calls itself identical to an upsert per row (`music_assistant/helpers/database.py:415-417`).
  Grouping reorders rows. Without immutable columns the outcome is identical exactly if for each conflict key and
  column the last value given is the same in both orders (`UpsertMany.GroupingIsUpsertingExactly`);
  `UpsertMany.SharedKeysAreReordered` shows lists where it is not. With them, it is identical if the column sets of
  each key are seen in the order of its rows (`UpsertMany.GroupingKeepsOutcome`).
- Fourteen zeros pass as a valid GTIN but have no payload, so neither their lookup spellings nor their UPC form
  normalize back; for all other codes they do (`Barcodes.SpellingsLeadBack`, `Barcodes.UpcLeadsBack`).
- `deferred_commit` promises that writes outside a scope commit immediately
  (`music_assistant/helpers/database.py:509-511`). A statement cancelled between the write and its commit leaves
  the write pending (`DeferredCommit.AbandonedOutsideScope`).
- `create_task` promises to deduplicate by id and to cancel its tasks on stop (`music_assistant/mass.py:799-811`).
  It does so exactly if a running task is returned or no constructor of that id is running
  (`TaskTracking.CreateKeepsExactly`): the first step of a task that creates its own id again leaves a task untracked
  that outlives stop
  (`TaskTracking.NestedIdLosesTask`). An empty id is not deduplicated (`TaskTracking.EmptyIdIsNotDeduplicated`).
- A dependency is looked up by instance id before domain. An id that names another domain satisfies it wrongly
  (`Providers.LoadMeetsDependency`); ids made as in `music_assistant/controllers/config/providers.py:580-583`
  never do.

Nothing promises that the order of the artists of a track does not matter, and it can: of two artists in one credit
group the last one determines how the credit splits on commas (`TrackMatching.ListsAreUnordered`,
`ArtistOrder.OrderOfArtistsMatters`).

## Model

| member | source | states |
|---|---|---|
| SpdxGrammar.ParseTreeIsUnique | scripts/check_package_safety.py:572-666 | a token list has at most one parse tree in which AND binds tighter than OR, and recursive descent finds it exactly when there is one |
| SpdxGrammar.ExprVerdictMeaning | scripts/check_package_safety.py:601-617 | an expression is accepted iff some OR-alternative consists only of accepted operands, refused iff every alternative has a refused operand |
| SpdxGrammar.TermVerdictMeaning | scripts/check_package_safety.py:620-636 | the same for one alternative: accepted iff all operands are, refused iff one is |
| SpdxGrammar.ExprIsFound | scripts/check_package_safety.py:601-617 | completeness of descent: the tokens of any tree, followed by anything that does not extend it, are read back as that tree |
| SpdxGrammar.TermIsFound | scripts/check_package_safety.py:620-636 | completeness for a term |
| SpdxGrammar.OperandIsFound | scripts/check_package_safety.py:639-666 | completeness for an operand, including WITH followed by "(" |
| SpdxGrammar.ExprIsSound | scripts/check_package_safety.py:601-617 | soundness: whatever is read is a tree whose tokens, with the rest, are the input |
| SpdxGrammar.TermIsSound | scripts/check_package_safety.py:620-636 | soundness for a term |
| SpdxGrammar.OperandIsSound | scripts/check_package_safety.py:639-666 | soundness for an operand |
| SpdxEvaluator.MaxGroupDepth | scripts/check_package_safety.py:754-768 | the counting loop returns the deepest group a scan opens, ignoring surplus closing parentheses |
| SpdxEvaluator.DeepestIsMonotone | scripts/check_package_safety.py:754-768 | starting the scan inside more groups never makes the deepest one shallower |
| SpdxEvaluator.ExprKeepsDepth | scripts/check_package_safety.py:754-768 | reading a whole expression does not lower the depth of what follows it: why recursion stays within the scanned depth |
| SpdxEvaluator.EvaluateTokens | scripts/check_package_safety.py:601-617 | popping tokens off the shared list computes the verdict of the tree read, leaves the rest, fails iff there is no tree; never called deeper than the scanned limit |
| SpdxEvaluator.EvaluateTerm | scripts/check_package_safety.py:620-636 | the same for a term, by strong-Kleene conjunction |
| SpdxEvaluator.EvaluateOperand | scripts/check_package_safety.py:639-666 | the same for an operand; a copyleft exception refuses |
| SpdxEvaluator.EvaluateExpression | scripts/check_package_safety.py:572-598 | refused beyond ten nested groups, otherwise the Kleene value of the unique tree of the whole list, or unknown when there is none; for one word, for a word WITH an exception and for any tree without bracket exceptions this is acceptance and refusal in words |
| SpdxVerdicts.ExprInWords | scripts/check_package_safety.py:601-666 | the three-valued verdict accepts iff two-valued acceptance does: some alternative holds only licenses on the list, with or without "+", and no exception that names the GPL, AGPL or SSPL beside its LGPL mentions; and it refuses iff every alternative holds such an exception |
| SpdxVerdicts.OperandInWords | scripts/check_package_safety.py:654-666 | the same for one operand, a group included |
| SpdxVerdicts.ListedMeansCompatible | scripts/check_package_safety.py:654-666 | an identifier is accepted iff in upper case it is on the list or on it with a "+" behind, and unknown otherwise |
| SpdxVerdicts.RefusedMeansCopyleft | scripts/check_package_safety.py:743-751 | an exception is refused iff one of the three families still occurs once the LGPL is taken out |
| SpdxVerdicts.RemoveFirst | scripts/check_package_safety.py:750-750 | taking out a word cuts its first occurrence and goes on behind it |
| SpdxVerdicts.RemoveNothing | scripts/check_package_safety.py:750-750 | and leaves a text without it as it is |
| SpdxVerdicts.ListedIsNotCopyleft | scripts/check_package_safety.py:111-139 | no license on the list would be refused as copyleft |
| SpdxEvaluator.ExprNesting | scripts/check_package_safety.py:754-768 | the scan over the tokens of a tree finds how deep its groups nest, unless an exception is written as a bracket |
| Filtergraph.BuildFiltergraphArgs | music_assistant/helpers/ffmpeg.py:1017-1078 | for every chain the arguments implement it: a graph iff some filter is complex, labels defined once, every label and input pad used once, the mapped label carrying the left-to-right application of the chain; extra inputs opened in order |
| FfmpegCommand.GetFfmpegArgs | music_assistant/helpers/ffmpeg.py:781-798 | read from the words of the command: some prefix opens the main file and the extra ones in order, and the filter arguments read after it carry the chain applied to the main file, for filter texts without brackets and semicolons |
| FfmpegCommand.WordsCarry | music_assistant/helpers/ffmpeg.py:1055-1078 | opened files and rendered arguments, put together, are read as the chain |
| GraphText.ArgsAreRead | music_assistant/helpers/ffmpeg.py:1028-1078 | a reader of bracketed pads, comma-separated filters and semicolon-separated parts gets back the arguments written, filters taken apart at commas |
| GraphText.PartIsRead | music_assistant/helpers/ffmpeg.py:1045-1075 | one part of the text is read back: its pads by number, its filters, its label |
| GraphText.DecimalIsRead | music_assistant/helpers/ffmpeg.py:1040-1043 | a number written in a pad is read back |
| GraphText.ApartCarries | music_assistant/helpers/ffmpeg.py:1028-1078 | taking filter texts apart at their commas keeps what the arguments carry |
| GraphText.InterpretApart | music_assistant/helpers/ffmpeg.py:1045-1075 | every label of the graph carries its signal with the texts taken apart |
| GraphText.NothingApart | music_assistant/helpers/ffmpeg.py:1028-1078 | without commas in the filters that is the meaning of the chain itself |
| Filtergraph.BuildGraph | music_assistant/helpers/ffmpeg.py:1032-1078 | the graph branch implements the chain |
| Filtergraph.BuildSimple | music_assistant/helpers/ffmpeg.py:1028-1030 | the -af branch lists the non-empty filters in order |
| Filtergraph.PlainMeaning | music_assistant/helpers/ffmpeg.py:1028-1030 | that list applied in turn is the meaning of a chain without complex filters |
| Filtergraph.GraphBuilder.NextLabel | music_assistant/helpers/ffmpeg.py:1040-1043 | labels are numbered without gaps |
| Filtergraph.GraphBuilder.FlushPending | music_assistant/helpers/ffmpeg.py:1045-1052 | emitting a pending run keeps the wiring and moves its effect into the current signal |
| Filtergraph.GraphBuilder.AddExtra | music_assistant/helpers/ffmpeg.py:1065-1071 | opening and preparing one extra input adds one free pad with its prepared signal |
| Filtergraph.GraphBuilder.AddComplex | music_assistant/helpers/ffmpeg.py:1059-1075 | a complex fragment takes the current signal and all prepared inputs and leaves one label |
| Filtergraph.GraphBuilder.AddFilter | music_assistant/helpers/ffmpeg.py:1054-1075 | one round of the loop applies one more filter of the chain |
| Filtergraph.PartStep | music_assistant/helpers/ffmpeg.py:1072-1075 | a new part uses up the free pads it reads, defines one fresh label, and keeps every pad used exactly once |
| Filtergraph.ExtraStep | music_assistant/helpers/ffmpeg.py:1063-1071 | the two ways of wiring an extra input keep the wiring |
| FfmpegCommand.ExtrasOpen | music_assistant/helpers/ffmpeg.py:1064-1066 | the input arguments open exactly the extra inputs, in order |
| BufferedGenerator.StepKeeps | music_assistant/helpers/buffered_generator.py:24-165 | every step of producer, consumer and shutdown keeps the invariant of the protocol |
| BufferedGenerator.RunKeeps | music_assistant/helpers/buffered_generator.py:24-165 | so does every interleaving |
| BufferedGenerator.StreamIsConserved | music_assistant/helpers/buffered_generator.py:102-165 | yielded, then queued, then in hand is the prefix of the source until shutdown; the queue never exceeds its size; what was yielded is always a prefix |
| BufferedGenerator.ConsumerEndsExactly | music_assistant/helpers/buffered_generator.py:154-162 | a consumer that takes the end marker has yielded every chunk; it raises what the source raised, except that a cancellation raised by the source ends it cleanly, as if the stream were complete |
| BufferedGenerator.ClientWaitsForBuffer | music_assistant/helpers/buffered_generator.py:112-152 | in every interleaving nothing is yielded, and the threshold is not set, before the source has given max(1, min(minimum, size)) chunks or has stopped, or the client has left |
| BufferedGenerator.ThresholdIsReached | music_assistant/helpers/buffered_generator.py:112-122 | and with that many chunks queued it is set |
| BufferedGenerator.StepKeepsWaited | music_assistant/helpers/buffered_generator.py:112-152 | each step keeps that |
| BufferedGenerator.NeverDeadlocked | music_assistant/helpers/buffered_generator.py:102-165 | no reachable state has both sides waiting on each other; each blocked side waits on an enabled step of the other, the source or the client; nothing blocks the producer in shutdown |
| BufferedGenerator.StepWorks | music_assistant/helpers/buffered_generator.py:24-66 | once the source has stopped every step uses up a measure |
| BufferedGenerator.RunIsBounded | music_assistant/helpers/buffered_generator.py:24-66 | so every run from there is finite |
| BufferedGenerator.ShutdownIsBounded | music_assistant/helpers/buffered_generator.py:49-66 | once the client has left at most seven more steps are taken, whatever the source does |
| BufferedGenerator.UnendedSourceIsClosed | music_assistant/helpers/buffered_generator.py:36-46 | a producer that stops reading a source that has not ended closes it |
| BufferedGenerator.SomethingIsEnabled | music_assistant/helpers/buffered_generator.py:24-165 | and can go on until the consumer has finished |
| BufferedGenerator.SourceStopReachesClient | music_assistant/helpers/buffered_generator.py:114-162 | a source that ends or fails after k chunks makes a client that keeps reading receive exactly those k chunks and the failure, or a clean end |
| BufferedTasks.Buffered.constructor | music_assistant/helpers/buffered_generator.py:90-94 | the start state, with the threshold clamped between one and the size; the invariant holds |
| BufferedTasks.Buffered.Put | music_assistant/helpers/buffered_generator.py:120-124 | the chunk joins the queue unless it is full, and the threshold event is set iff it was, or the chunk was put and the queue holds the minimum |
| BufferedTasks.Buffered.FinalizeProducer | music_assistant/helpers/buffered_generator.py:24-46 | the consumer is released, and the stream ended or closed |
| BufferedTasks.Buffered.SourceYieldsChunk | music_assistant/helpers/buffered_generator.py:115-124 | the chunk goes behind all others, or stays in hand while the queue is full, unless the consumer has left; the queue stays within its size |
| BufferedTasks.Buffered.SourceIsOver | music_assistant/helpers/buffered_generator.py:125-137 | the consumer is released, and the error recorded unless it is a cancellation |
| BufferedTasks.Buffered.GetItem | music_assistant/helpers/buffered_generator.py:156-162 | the chunk yielded is the next one of the source; without one the client has every chunk, and what the source raised is raised, a cancellation excepted |
| BufferedTasks.Buffered.ResumePut | music_assistant/helpers/buffered_generator.py:119-124 | a put that waited fits, within the size |
| BufferedTasks.Buffered.StartShutdown | music_assistant/helpers/buffered_generator.py:49-58 | the queue is drained and nothing blocks the producer any more |
| BufferedTasks.Buffered.TimeOutJoin | music_assistant/helpers/buffered_generator.py:59-66 | after the forced cancel only the close of the source may still be under way; after a second wait the consumer has finished |
| BufferedTasks.Buffered.Perform | music_assistant/helpers/buffered_generator.py:69-165 | whichever task the scheduler resumes, the code takes the step of the protocol and keeps its invariant |
| BufferedTasks.Play | music_assistant/helpers/buffered_generator.py:69-165 | driven by any schedule the code makes a run of the protocol: the queue within its size, a prefix yielded, nothing before the buffer is filled, everything yielded at an end |
| SilenceKeepalive.SilenceBytes | music_assistant/helpers/audio.py:453-468 | a silence chunk is a positive whole number of frames for every format and duration |
| SilenceKeepalive.SilenceSize | music_assistant/helpers/audio.py:463-467 | it holds all the whole frames of the asked duration, so at most the asked bytes and less than a frame fewer, or a single frame where not even one fits |
| SilenceKeepalive.StepKeeps | music_assistant/helpers/audio.py:471-503 | every step of producer, consumer and timeouts keeps the invariant |
| SilenceKeepalive.RunKeeps | music_assistant/helpers/audio.py:471-503 | so does every interleaving |
| SilenceKeepalive.OutputIsFaithful | music_assistant/helpers/audio.py:423-503 | without injected chunks the output is a prefix of the source, all of it on a clean end or a failure, which is reported as the source ended; injected chunks are zero bytes of that size |
| SilenceKeepalive.NeverDeadlocked | music_assistant/helpers/audio.py:487-503 | a waiting consumer can time out, and a waiting producer always has a get or a free place |
| SilenceKeepalive.Keepalive.constructor | music_assistant/helpers/audio.py:466-469 | the start state; the invariant holds |
| SilenceKeepalive.Keepalive.QueuePut | music_assistant/helpers/audio.py:471-485 | a put is the put of the protocol |
| SilenceKeepalive.Keepalive.GetItem | music_assistant/helpers/audio.py:488-499 | the chunk yielded is the next one of the source; without one the client has every chunk, and ends or fails as the source did |
| SilenceKeepalive.Keepalive.SourceYieldsChunk | music_assistant/helpers/audio.py:474-475 | the chunk goes behind all others, or stays in hand while the queue is full |
| SilenceKeepalive.Keepalive.TimeOutGet | music_assistant/helpers/audio.py:490-494 | yields the silence chunk and relays nothing |
| SilenceKeepalive.Keepalive.StopReading | music_assistant/helpers/audio.py:500-503 | the producer is cancelled, and what was relayed stays a prefix |
| SilenceKeepalive.Keepalive.Perform | music_assistant/helpers/audio.py:471-503 | whichever task is resumed or times out, the code takes the step and keeps the invariant |
| ReleaseVersions.EnsureUnique | scripts/release_workflow.py:643-657 | the loop ends at the first version upwards from the start that is no tag |
| ReleaseVersions.DetermineAutoRelease | scripts/release_workflow.py:165-237 | an automatic release issues the first free version from the next one of its channel, or refuses a stable release while a newer release candidate exists |
| ReleaseVersions.StableIsFresh | scripts/release_workflow.py:587-591 | an issued stable version is no tag and newer than every stable tag |
| ReleaseVersions.BetaIsFresh | scripts/release_workflow.py:594-607 | an issued beta is no tag, newer than every beta and than every stable tag |
| ReleaseVersions.RcIsFresh | scripts/release_workflow.py:610-621 | an issued candidate is no tag and newer than every candidate, also while there is no beta |
| ReleaseVersions.NightlyIsFresh | scripts/release_workflow.py:624-640 | an issued nightly is no tag and newer than every nightly, whatever the clock says |
| ReleaseVersions.IssueKeeps | scripts/release_workflow.py:165-237 | an issued version matches its channel, is fresh, and tagging it keeps the invariant |
| ReleaseVersions.RunKeeps | scripts/release_workflow.py:165-237 | the invariant over every run of automatic and manual releases from no tags |
| ReleaseVersions.EveryIssueIsFresh | scripts/release_workflow.py:165-237 | over every such run each issued version matches its channel, is absent from all tags and strictly newer than all of its channel, a beta also than the latest stable |
| ReleaseIssues.EveryIssueIsExact | scripts/release_workflow.py:587-640 | over every run: a stable release is the newest one with its patch raised; a beta the next number on the base of the newest beta, until a stable release reaches its minor, then number 1 of the minor after; a candidate the next number on the base of the newest beta; a nightly the serial on the minor after the newest stable release, or the number after those there |
| ReleaseIssues.StableIsExact | scripts/release_workflow.py:587-591 | after latest stable major.minor.patch exactly major.minor.(patch + 1), or 0.1.0 |
| ReleaseIssues.BetaIsExact | scripts/release_workflow.py:594-607 | the base and number of a beta |
| ReleaseIssues.RcIsExact | scripts/release_workflow.py:610-621 | the base and number of a candidate |
| ReleaseIssues.NightlyIsExact | scripts/release_workflow.py:624-640 | the base and number of a nightly, for any clock |
| ReleaseIssues.RefusedInWindow | scripts/release_workflow.py:193-203 | a release is refused iff the channel is stable and some candidate tag is above every stable tag; the newest candidate is named |
| ReleaseIssues.NewerMeaning | scripts/release_workflow.py:667-675 | the order of versions is that of the first differing of five numbers |
| ReleaseIssues.LatestIsNewest | scripts/release_workflow.py:185-191 | the latest tag of a channel is above all others of it |
| ReleaseTags.TagNameIsInjective | scripts/release_workflow.py:660-675 | canonical versions never share a tag name |
| ReleaseTags.IssuedNameIsNew | scripts/release_workflow.py:643-657 | so the name of an issued version is the name of no tag |
| Providers.MusicAssistant.UnloadProvider | music_assistant/mass.py:1161-1209 | terminates, removes exactly the instance and its transitive dependents, every dependent before what it depends on |
| Providers.MusicAssistant.GetProvider | music_assistant/mass.py:637-664 | an available provider of that instance id; else, for a streaming one its domain and for an unknown id the name as a domain, an available provider of the domain iff there is one |
| Providers.MusicAssistant.LoadProvider | music_assistant/mass.py:1433-1498 | unloads first; then disabled, unknown, over the instance limit, without its dependency or failing in setup is told apart, in all of which nothing new is loaded, and success adds exactly the available new instance |
| Providers.UnloadedByChain | music_assistant/mass.py:1161-1209 | a provider is left by an unload iff no chain of loaded providers, each declaring the domain of the one before it, leads to it, and then as it was |
| Providers.MusicAssistant.RegisterLoadedProvider | music_assistant/mass.py:1500-1534 | a failure after registration unloads the instance and its dependents again |
| Providers.NeedsIsLower | music_assistant/mass.py:1185-1187 | chains of dependents descend in any ranking of an acyclic catalog |
| Providers.CascadeIsClosed | music_assistant/mass.py:1185-1187 | what remains after a cascade never depends on what has gone |
| Providers.UnloadKeeps | music_assistant/mass.py:1161-1209 | unloading keeps dependencies loaded and instance limits |
| Providers.RegisterKeeps | music_assistant/mass.py:1446-1462 | so does registering a provider that passed the checks |
| Providers.LoadKeeps | music_assistant/mass.py:1433-1534 | so does every load, successful or failing |
| Providers.RunKeeps | music_assistant/mass.py:1433-1534 | on every run of loads, unloads and changes of availability, with ids that do not name another domain, the dependency domain of a loaded provider is loaded |
| Providers.LimitHoldsOnEveryRun | music_assistant/mass.py:1433-1534 | on every such run, whatever the ids, a single-instance domain has at most one instance |
| Providers.LoadMeetsDependency | music_assistant/mass.py:1458-1462 | for arbitrary ids, a load keeps dependencies loaded iff its dependency does not name the id of a provider of another domain while no provider of that domain is loaded |
| Providers.ForeignIdMisleadsLookup | music_assistant/mass.py:650-657 | a concrete catalog where such an id loads a provider without its dependency |
| TaskTracking.StepKeeps | music_assistant/mass.py:785-940 | every step of create, replace, finish, cancel, stop, call later and fire keeps the tables right |
| TaskTracking.RunKeeps | music_assistant/mass.py:785-940 | so does every run |
| TaskTracking.TasksAreTracked | music_assistant/mass.py:822-881 | an id has at most one task that is neither done nor cancel-requested; it is tracked once its constructor has returned, and then stop cancels it |
| TaskTracking.StopCancelsAll | music_assistant/mass.py:399-401 | after the cancel loop only tasks still inside their constructor are left |
| TaskTracking.TimersAreTracked | music_assistant/mass.py:883-923 | every timer that can fire is exactly the tracked one of its id, so the pop of its callback cannot fail |
| TaskTracking.OnlyTheLastCallFires | music_assistant/mass.py:898-923 | after a debounced call no earlier timer of that id can fire |
| TaskTracking.CreateKeepsExactly | music_assistant/mass.py:822-881 | for every non-empty id, creating a task keeps the tables right iff the running one is returned or no constructor of that id is running |
| TaskTracking.EmptyIdIsNotDeduplicated | music_assistant/mass.py:822-830 | an empty id skips the lookup: the tables stay right iff no constructor of it is running and no other live task has it |
| TaskTracking.NestedIdLosesTask | music_assistant/mass.py:851-881 | a task created, not merely returned, under the id of any running constructor is live and untracked once the constructors have returned, and outlives stop |
| TaskTracking.Tracker.CreateTask | music_assistant/mass.py:822-853 | returns the running task tracked under that id instead of a duplicate, or asks it to cancel and starts one more; the tables stay right under the exact condition |
| TaskTracking.Tracker.TrackTask | music_assistant/mass.py:879-881 | the new task is the one tracked under its id |
| TaskTracking.Tracker.TaskDone | music_assistant/mass.py:855-860 | only the entry of this very task is removed, and live tasks stay tracked |
| TaskTracking.Tracker.CancelTrackedTask | music_assistant/mass.py:932-935 | no task of that id is live any more, unless still in its constructor |
| TaskTracking.Tracker.StopTasks | music_assistant/mass.py:400-401 | the loop leaves no task live but those still in their constructor |
| TaskTracking.Tracker.RunLater | music_assistant/mass.py:901-923 | the new timer is the tracked one, and no other of that id can fire |
| TaskTracking.Tracker.CancelTrackedTimer | music_assistant/mass.py:937-940 | no timer of that id can fire any more |
| TaskTracking.Tracker.TimerFires | music_assistant/mass.py:904-910 | the entry popped is there, and is the firing timer itself |
| DeferredCommit.StepKeeps | music_assistant/helpers/database.py:498-524 | every step of every task keeps pending writes owned by a task that will commit |
| DeferredCommit.RunKeeps | music_assistant/helpers/database.py:498-524 | so does every interleaving with nested scopes |
| DeferredCommit.NothingStaysPending | music_assistant/helpers/database.py:498-524 | each uncommitted write belongs to a task inside a scope or about to commit, so nothing is pending once all scopes and calls have ended |
| DeferredCommit.ScopeCommitsOnce | music_assistant/helpers/database.py:513-524 | between entering its outermost scope and leaving it a task commits once, at the exit, after which nothing is pending |
| DeferredCommit.AbandonedOutsideScope | music_assistant/helpers/database.py:582-585 | a statement abandoned before its commit outside every scope keeps this iff its write was already committed by another task |
| DeferredCommit.Database.MaybeCommitConnection | music_assistant/helpers/database.py:582-585 | outside every scope nothing is pending afterwards, inside one nothing is committed |
| DeferredCommit.Database.AbandonStatement | music_assistant/helpers/database.py:491-492 | a statement abandoned before its commit keeps every write owned iff its task is in a scope or its write was committed already |
| DeferredCommit.Database.EnterDeferred | music_assistant/helpers/database.py:513-516 | a task in a scope has not committed since it entered the outermost one |
| DeferredCommit.Database.ExitDeferred | music_assistant/helpers/database.py:517-523 | leaving the outermost scope, and no other, goes on to commit |
| DeferredCommit.Database.CommitDeferred | music_assistant/helpers/database.py:523-524 | one commit since the outermost scope was entered, and nothing pending after it |
| DeferredCommit.Database.Perform | music_assistant/helpers/database.py:498-524 | whichever task is resumed, every write stays owned, and none is pending once all scopes and calls have ended |
| UpsertMany.SameOrderPerKey | music_assistant/helpers/database.py:424-436 | two lists with the same rows in the same order for each conflict key have the same table and the same count of rows held back |
| UpsertMany.GroupingKeepsOrder | music_assistant/helpers/database.py:418-422 | grouping by column set keeps the order of the rows of each key, if their columns are seen in that order |
| UpsertMany.OrderIsKeptExactly | music_assistant/helpers/database.py:415-422 | the order of the rows of each key is kept exactly under that condition |
| UpsertMany.GroupingKeepsOutcome | music_assistant/helpers/database.py:399-438 | under it, group by group is the same table and count as upserting row by row; distinct keys are a special case |
| UpsertMany.GroupingIsUpsertingExactly | music_assistant/helpers/database.py:415-438 | from any table and without immutable columns, the outcome is that of upserting row by row iff for each key and column the last value given is the same in both orders |
| UpsertMany.SameOutcomeExactly | music_assistant/helpers/database.py:387-397 | two orders of the same rows end in the same table iff each cell is given the same value last |
| UpsertMany.SharedKeysAreReordered | music_assistant/helpers/database.py:415-422 | from any table, three rows of one key with columns a, b, a that disagree on a common column of the last two end differently |
| UpsertMany.StatementMeaning | music_assistant/helpers/database.py:424-436 | one statement inserts a new row, or overwrites the given columns of a known one unless an immutable one would change, which is counted; all other rows stay |
| UpsertMany.Connection.ExecuteMany | music_assistant/helpers/database.py:424-436 | one statement for a group upserts its rows in order and counts those not held back |
| UpsertMany.Connection.GroupRows | music_assistant/helpers/database.py:418-422 | the dict of row lists is the grouping, in order of first insertion |
| UpsertMany.Connection.ExecuteGroups | music_assistant/helpers/database.py:423-436 | all groups in turn, with the running count |
| UpsertMany.Connection.UpsertRows | music_assistant/helpers/database.py:399-438 | the table and the returned count for all rows by group; those of an upsert per row when columns are seen in order, and without immutable columns exactly when the last cells agree |
| SourceCache.SourceMemoryCache.Get | music_assistant/helpers/images.py:157-167 | a hit is the last accepted value of the key, no older than the TTL, and becomes the newest entry; a miss has no entry or drops an expired one |
| SourceCache.SourceMemoryCache.Put | music_assistant/helpers/images.py:169-178 | the entry survives its own put and the cache keeps the longest most recently used suffix that fits; too large a value changes nothing |
| SourceCache.SourceMemoryCache.Evict | music_assistant/helpers/images.py:176-178 | the loop keeps exactly the longest fitting suffix, within budget |
| SourceCache.SourceMemoryCache.Pop | music_assistant/helpers/images.py:180-183 | removes the entry and its size, and keeps the cache valid |
| SourceCache.SourceMemoryCache.Clear | music_assistant/helpers/images.py:185-188 | empties the cache |
| SourceCache.SourceMemoryCache.MoveToEnd | music_assistant/helpers/images.py:166-167 | reorders one entry, keeping the total |
| SourceCache.LongestFitIsUnique | music_assistant/helpers/images.py:176-178 | there is only one longest fitting suffix |
| SourceCache.EvictsLeastRecentlyUsed | music_assistant/helpers/images.py:176-178 | whatever a put evicts was last used before whatever it keeps |
| SourceCache.SuffixShrinks | music_assistant/helpers/images.py:176-178 | shorter suffixes are smaller |
| SourceCache.WithoutMeaning | music_assistant/helpers/images.py:180-183 | leaving out a key drops its one entry and keeps the others in order |
| Lyrics.NormalizeLrcLyrics | music_assistant/helpers/lyrics.py:23-45 | the loops, sort and strip compute the normal form |
| Lyrics.StableSortSorts | music_assistant/helpers/lyrics.py:44-44 | the sort is sorted, a permutation, and keeps the order at each time |
| Lyrics.EntriesInherit | music_assistant/helpers/lyrics.py:37-43 | in the entries, an untimed line has the time of the entry before it |
| Lyrics.SortingInherits | music_assistant/helpers/lyrics.py:37-45 | and still does after the stable sort |
| Lyrics.LinesGiveEntries | music_assistant/helpers/lyrics.py:40-43 | lines of such a list are read back with the same times |
| Lyrics.NormalizedHoldsAll | music_assistant/helpers/lyrics.py:23-45 | the result reads back in order of time, one stamp per line, and holds every line once per stamp and every untimed line, but for blank lines at the ends |
| Lyrics.NothingMeansBlank | music_assistant/helpers/lyrics.py:45-45 | there is no result iff there are only blank lines |
| Lyrics.NormalizedKeepsOrder | music_assistant/helpers/lyrics.py:44-45 | lines of one time keep their order |
| Lyrics.NormalizingIsIdempotent | music_assistant/helpers/lyrics.py:23-45 | normalizing twice is normalizing once |
| LyricsOrder.OutputIsInOrder | music_assistant/helpers/lyrics.py:40-44 | stamped lines come out by sixty seconds a minute, so by minutes and then by seconds |
| LyricsOrder.OutputHoldsEveryStamp | music_assistant/helpers/lyrics.py:68-79 | the result holds, but for blank lines, exactly one line with its text for each stamp of each line, and each untimed line |
| LyricsOrder.UntimedFollowsLatest | music_assistant/helpers/lyrics.py:36-43 | an untimed line is sorted at the latest stamp of the last line before it that has any, or at zero |
| AudioParts.GetPartsFromPosition | music_assistant/helpers/audio.py:322-363 | the loop stops at the first part that ends at or after the position, is unknown, or is no part; with known durations it fails iff the total is below the position or there are no parts, and lands near it otherwise |
| AudioParts.SeekingLandsNear | music_assistant/helpers/audio.py:322-363 | start plus offset lies less than one second before or at most two seconds after the position |
| AudioParts.SeekingIsExact | music_assistant/helpers/audio.py:322-363 | within two seconds of the end of its part the position becomes the start of the next; else the whole seconds into the part; an unknown duration keeps list and position |
| AudioParts.SeekingToStartSucceeds | music_assistant/helpers/audio.py:322-363 | seeking to zero succeeds at the first part |
| AudioParts.IterPcmSlices | music_assistant/helpers/audio.py:100-137 | the slices put together are the buffer, none is empty, all but the last hold the same whole number of frames |
| Barcodes.NormalizeIsIdempotent | music_assistant/helpers/external_ids.py:30-47 | normalizing a barcode twice is normalizing it once |
| Barcodes.DigitsNormalize | music_assistant/helpers/external_ids.py:158-173 | what becomes of every digit string, by its own check digit at its own length |
| Barcodes.SeparatorsAreIgnored | music_assistant/helpers/external_ids.py:158-161 | hyphens and spaces do not matter to a code with a payload, and any other stray character keeps a value from becoming one |
| Barcodes.CanonicalIsFixed | music_assistant/helpers/external_ids.py:158-173 | a valid GTIN-14 is its own normal form |
| Barcodes.ValidAtAnyLength | music_assistant/helpers/external_ids.py:190-202 | a digit string is a valid code as a GTIN-14 iff its check digit is right at its own length |
| Barcodes.CheckedMeaning | music_assistant/helpers/external_ids.py:197-202 | a code is valid iff its digits, counted once at even and three times at odd places from the right, sum to a multiple of ten |
| Barcodes.AppendedDigit | music_assistant/helpers/external_ids.py:169-172 | the digit that completes a code is the only one that makes it valid |
| Barcodes.CompactMeaning | music_assistant/helpers/external_ids.py:160-160 | each character stays or goes by itself: hyphens and spaces go |
| Barcodes.StripMeaning | music_assistant/helpers/external_ids.py:40-40 | only white space at the two ends is stripped, and all of it |
| Barcodes.UpcMeaning | music_assistant/helpers/external_ids.py:130-140 | the short form has twelve digits, or more where the payload has more, and keeps the payload; anything else stays as it is |
| Barcodes.WrongDigitIsCaught | music_assistant/helpers/external_ids.py:197-202 | the check digit catches every single wrong digit |
| Barcodes.BarcodeLookupValues | music_assistant/helpers/external_ids.py:65-89 | the lookup set is the stripped value, the normal form and, for a valid code, its payload at every GTIN length that holds it |
| Barcodes.SpellingsLeadBack | music_assistant/helpers/external_ids.py:65-89 | all spellings of a code normalize back to it iff it is not fourteen zeros |
| Barcodes.UpcLeadsBack | music_assistant/helpers/external_ids.py:130-140 | the shortest form normalizes back to the code iff it is not fourteen zeros |
| Barcodes.DigitsOfCode | music_assistant/helpers/external_ids.py:65-89 | a digit string normalizes to a code iff it is in its lookup spellings, or is the code without its check digit and no code itself |
| Barcodes.ZeroCodeIsValid | music_assistant/helpers/external_ids.py:190-202 | fourteen zeros pass as a canonical code |
| Barcodes.ZeroSpelling | music_assistant/helpers/external_ids.py:158-166 | no other spelling of them normalizes to it |
| Palette.DerivePalette | music_assistant/helpers/colors.py:167-209 | for every nonempty list both backgrounds and both on-colours are there and all six pairs reach 4.5; which colour each one is |
| Palette.PickOnColor | music_assistant/helpers/colors.py:131-145 | the first candidate of the highest contrast in the range, or none iff none is in it |
| Palette.PickOnColorWithFallback | music_assistant/helpers/colors.py:148-154 | at the preferred contrast, else at the minimum |
| Palette.PickIsReadable | music_assistant/helpers/colors.py:148-154 | a pick is a candidate with the minimum contrast, and is missing iff no candidate has it |
| Palette.AdjustUntilContrast | music_assistant/helpers/colors.py:94-113 | the first of the steps that clears all references, or none iff none does |
| Palette.AdjustWithFallback | music_assistant/helpers/colors.py:116-120 | at the preferred contrast, else at the minimum |
| Palette.ClearingTargetIsReached | music_assistant/helpers/colors.py:94-113 | blending succeeds whenever the target itself clears |
| Palette.PickAccent | music_assistant/helpers/colors.py:157-164 | the first candidate far enough from the primary |
| Palette.ContrastBounds | music_assistant/helpers/colors.py:62-78 | contrast is symmetric and lies between 1 and 21 |
| Palette.MixEnds | music_assistant/helpers/colors.py:85-91 | no blending gives the colour, full blending the target |
| Palette.MixStepMeaning | music_assistant/helpers/colors.py:85-113 | each of twenty steps takes every channel to the integer nearest to that many twentieths of its way, ties to the even one |
| Palette.LuminanceMeaning | music_assistant/helpers/colors.py:62-70 | the three channels have fixed shares of the light, which add up |
| Palette.OnColorIsReadable | music_assistant/helpers/colors.py:172-185 | an on-colour is always found and can be read on its ground |
| Palette.BackgroundIsReadable | music_assistant/helpers/colors.py:187-197 | a background is always found and both its texts can be read on it |
| MatchItems.SameItemIsSymmetric | music_assistant/helpers/compare.py:919-964 | both identity comparisons are symmetric, with and without sibling instances |
| MatchItems.CompareExternalIdsIsSymmetric | music_assistant/helpers/compare.py:967-994 | the three-valued comparison of identifiers is symmetric |
| MatchItems.VersionComparisonsAreSymmetric | music_assistant/helpers/compare.py:1340-1451 | equal versions, recording conflicts, remaster conflicts and missing remasters are symmetric |
| MatchItems.ArtistsSameIsSymmetric | music_assistant/helpers/compare.py:196-220 | the comparison of artists is symmetric |
| MatchItems.PairMatchesIsSymmetric | music_assistant/helpers/compare.py:908-915 | counting matching pairs over either list first gives the same number |
| MatchItems.ArtistListsMatchIsSymmetric | music_assistant/helpers/compare.py:897-916 | the comparison of artist lists is symmetric, for any and for all artists |
| MatchItems.StrictListsMatch | music_assistant/helpers/compare.py:897-916 | lists that match as a whole share an artist |
| MatchItems.CompareArtists | music_assistant/helpers/compare.py:897-916 | the nested loops with their early returns decide the match of the lists |
| AlbumEvidence.TrackPositions | music_assistant/helpers/compare.py:1180-1194 | tracks by position, or nothing for a mixed, incomplete or ambiguous tracklist |
| AlbumEvidence.ComparePositions | music_assistant/helpers/compare.py:375-383 | the loop returns the least evidence of any position |
| AlbumEvidence.CompareAlbumTrackFingerprint | music_assistant/helpers/compare.py:340-383 | the fingerprint of two optional tracklists |
| AlbumEvidence.FingerprintIsMinimum | music_assistant/helpers/compare.py:375-383 | for tracklists of one shape the fingerprint is a lower bound of the evidence of every position and reached at one |
| AlbumEvidence.TrackFingerprintMeaning | music_assistant/helpers/compare.py:1202-1227 | when a position matches and when it conflicts: common ISRCs within eight seconds, else equal names and versions within two |
| AlbumEvidence.TrackFingerprintIsSymmetric | music_assistant/helpers/compare.py:1202-1227 | the evidence of one position is symmetric |
| AlbumEvidence.FingerprintIsSymmetric | music_assistant/helpers/compare.py:340-383 | so is the fingerprint |
| AlbumEvidence.ReorderingKeepsFingerprint | music_assistant/helpers/compare.py:340-383 | permuting either tracklist changes nothing |
| AlbumEvidence.ReorderedIsTrusted | music_assistant/helpers/compare.py:1180-1194 | nor does it change whether a tracklist is trusted |
| AlbumMatching.VersionEvidenceMeaning | music_assistant/helpers/compare.py:1114-1138 | equal wordings match, and a wording that is part of the other leaves the edition open unless a recording or remaster conflict decides |
| AlbumMatching.MetadataMeaning | music_assistant/helpers/compare.py:283-337 | what the metadata of two full albums refute, and what they confirm without tracklists |
| AlbumMatching.AlbumEvidenceIsSymmetric | music_assistant/helpers/compare.py:232-337 | exchanging two albums with their tracklists changes nothing, errors included |
| AlbumMatching.MetadataEvidenceIsSymmetric | music_assistant/helpers/compare.py:283-337 | nor for the metadata alone |
| AlbumMatching.VersionEvidenceIsSymmetric | music_assistant/helpers/compare.py:1114-1138 | nor for the versions |
| AlbumMatching.TracklistsResolve | music_assistant/helpers/compare.py:1472-1484 | tracklists never change a no-match, never make a match insufficient, replace insufficient by the fingerprint, may refute only a match of metadata |
| AlbumMatching.FailsOnlyStrictly | music_assistant/helpers/compare.py:314-318 | the assertion fails exactly for a strict comparison with a mere reference that nothing decided before |
| AlbumMatching.StrictMatchIsMatch | music_assistant/helpers/compare.py:232-337 | what matches strictly matches without strictness |
| TrackMatching.TrackEvidenceMeaning | music_assistant/helpers/compare.py:128-140 | what each match policy accepts: a shared item or track id satisfies every policy, another recording id none, and otherwise exactly which titles, credits, versions, positions, releases and durations reach the minimum |
| TrackMatching.IdentifiersOverrideMetadata | music_assistant/helpers/compare.py:630-647 | where an identifier settles the match, nothing else the tracks or their albums say changes the confidence, which is then exact or none |
| TrackMatching.DescribedEvidenceMeaning | music_assistant/helpers/compare.py:647-721 | exactly which descriptions reach each level, whatever the order in which they are examined |
| TrackMatching.TrackEvidenceIsSymmetric | music_assistant/helpers/compare.py:613-721 | swapping two tracks together with their albums never changes the confidence |
| TrackMatching.DescribedEvidenceIsSymmetric | music_assistant/helpers/compare.py:647-721 | nor without decisive identifiers |
| TrackMatching.CreditsMatchIsSymmetric | music_assistant/helpers/compare.py:1245-1260 | artist-credit cover is symmetric |
| TrackMatching.SameAlbumIsSymmetric | music_assistant/helpers/compare.py:571-591 | so is being on the same album |
| TrackMatching.VersionPartsAreSymmetric | music_assistant/helpers/compare.py:1419-1451 | so are the version and remaster rules |
| TrackMatching.ExactNeedsRelease | music_assistant/helpers/compare.py:666-684 | exact confidence takes an identifier of track or release, never metadata alone |
| TrackMatching.TrackArtistCreditGroups | music_assistant/helpers/compare.py:1263-1279 | the loops collect the credit groups and the last list of each |
| TrackMatching.ListsAreUnordered | music_assistant/helpers/compare.py:1273-1276 | the comma-split lists do not depend on the order of the artists iff artists of one group split alike |
| ArtistOrder.OrderOfArtistsMatters | music_assistant/helpers/compare.py:1273-1276 | where they do not, exchanging the second and third artist of a track turns a match into none, for concrete tracks |
| TrackMatching.RestOfArtistsIsUnordered | music_assistant/helpers/compare.py:613-721 | then only the first artist has a place of its own: permuting the others never changes the confidence |
| MatchRules.IdsInWords | music_assistant/helpers/compare.py:967-994 | two items share an identifier of a type iff two values of theirs normalize alike, ISRCs only where valid; they differ in it iff it is unique, both have one and share none; otherwise nothing is known |
| MatchRules.FirstAnswerInWords | music_assistant/helpers/compare.py:266-280 | the first type with an answer decides |
| MatchRules.IdentityInWords | music_assistant/helpers/compare.py:540-568 | one item: the same provider item or a mapping of one to the other; and with siblings, mappings of one domain and item, of one instance where they must be |
| MatchRules.NamesInWords | music_assistant/helpers/compare.py:1013-1060 | names match in lower case, by their normal forms, or without spaces if those are empty; albums only if their retail suffixes do not differ |
| MatchRules.RecordingWordsInWords | music_assistant/helpers/compare.py:59-68 | versions name other recordings iff either holds one of the eight words |
| MatchRules.RemastersInWords | music_assistant/helpers/compare.py:1407-1451 | remasters conflict iff only one version names one, or each names years and none is common; one is merely missing iff it and numbers are all that one version says and the other says nothing |
| MatchRules.PairMatchesAreCounted | music_assistant/helpers/compare.py:908-915 | the counter of the nested loops is the number of pairs of places with the same artist |
| MatchRules.ArtistListsInWords | music_assistant/helpers/compare.py:897-916 | lists match if their first artists do, if any pair does, or if there are as many pairs as artists in each |
| MatchRules.ArtistsInWords | music_assistant/helpers/compare.py:196-220 | after the item the first deciding type of MusicBrainz, Discogs and TheAudioDB settles two artists, then known types that differ, then the names |
| MatchOutcomes.ReleaseIdDecides | music_assistant/helpers/compare.py:266-280 | the first deciding type of MusicBrainz, Discogs and TheAudioDB makes two albums a match if an id is shared and no match if unique ids differ, whatever else they say |
| MatchOutcomes.AlbumEvidenceInWords | music_assistant/helpers/compare.py:283-337 | two full albums that no identifier decides: no match iff version words, names, explicit flags or artists tell them apart; a match iff they share a barcode or ASIN, or have equal version words and no differing years |
| MatchOutcomes.ReferenceInWords | music_assistant/helpers/compare.py:283-318 | with a mere reference, version words, names and the product decide |
| MatchOutcomes.RecordingWordsPartAlbums | music_assistant/helpers/compare.py:1114-1138 | one recording word in one of two differing versions makes two albums no match, whatever their tracks |
| MatchOutcomes.VersionInWords | music_assistant/helpers/compare.py:1114-1138 | which sets of version words match, leave the edition open, or conflict |
| MatchOutcomes.FingerprintInWords | music_assistant/helpers/compare.py:340-383 | when tracklists can be compared at all, and then no match, insufficient or match by their places and the tracks there |
| MatchOutcomes.TrackFingerprintInWords | music_assistant/helpers/compare.py:1202-1227 | one place, by ISRCs, names, version words and seconds |
| MatchOutcomes.TrackIdsDecide | music_assistant/helpers/compare.py:630-647 | the item, differing recording ids, then a shared track id decide about two tracks, and otherwise their description with the given albums or else their own |
| MatchOutcomes.RecordingWordsPartTracks | music_assistant/helpers/compare.py:1340-1346 | one recording word in one of two differing track versions is no match, for any albums |
| MatchOutcomes.RemastersPartTracks | music_assistant/helpers/compare.py:1419-1451 | with the setting, remasters told apart by the words of the tracks or else their albums are no match |
| MatchOutcomes.FlagsPartTracks | music_assistant/helpers/compare.py:1349-1359 | known explicit flags that differ, of the tracks or else their albums, are no match |
| MatchOutcomes.PlacesInWords | music_assistant/helpers/compare.py:1362-1388 | one place by disc and number, an unknown disc counting as the first, or three seconds where a number is unknown; when places conflict |
| MatchOutcomes.AlbumsInWords | music_assistant/helpers/compare.py:571-591 | tracks are on one album by its item, its first deciding release id, or else matching metadata |
| MatchOutcomes.ReleaseInWords | music_assistant/helpers/compare.py:594-610 | one release: the same item or a shared release id; and when years agree |
| MatchOutcomes.RecordingIdsInWords | music_assistant/helpers/compare.py:650-700 | one recording: a shared recording id, or a shared ISRC within eight seconds |
| CreditRules.CreditsInWords | music_assistant/helpers/compare.py:1245-1332 | credits match iff all of one track stand in the other, as a whole or name by name, and each track credits the first artist of the other |
| CreditRules.ListForInWords | music_assistant/helpers/compare.py:1273-1276 | the names a credit is split into are those of the last artist with it |
| CreditRules.KeysInWords | music_assistant/helpers/compare.py:1282-1297 | the keys of a credit are those of the non-empty names it splits into |

## Left out

- asyncio itself: stretches of code between awaits are atomic steps and any enabled step may be next; clocks, timeouts and the order of callbacks are arbitrary.
- BufferedGenerator.StreamIsConserved: starts from a buffer size above one; at one or less the source is passed through without a queue.
- SilenceKeepalive.OutputIsFaithful: for well-formed PCM only, since other streams are passed through unchanged.
- SilenceKeepalive.NeverDeadlocked: a source that is never read again after a stop is not followed further.
- FfmpegCommand.GetFfmpegArgs: the resampling and channel filters that the caller's chain is extended with are part of the given chain; the caller's arguments open one input and no options hide another. The reader takes every comma for a separator of filters and knows no quoting, and brackets or semicolons inside a filter text are not followed.
- SpdxEvaluator.EvaluateExpression: starts from the tokens; the regular expression that finds them, and upper-casing beyond ASCII, are not part of the model.
- ReleaseVersions.DetermineAutoRelease: git sorting is taken to list the newest tag of a channel first; the previous tag, the count of commits since it and the decision whether to release are not part of it.
- Providers.RunKeeps: the ids of loads do not name another domain; for other ids the exact condition is `Providers.LoadMeetsDependency`. Loads and unloads are atomic; teardown hooks that raise, ready events, discovery and players are not modelled.
- Providers.MusicAssistant.UnloadProvider: dependencies between domains are acyclic, as the manifests require.
- TaskTracking.TasksAreTracked: a missing id is a fresh one; ids are not empty and no constructor of the id is running, the exact condition of `TaskTracking.CreateKeepsExactly`.
- DeferredCommit.NothingStaysPending: outside every scope no statement is abandoned between its write and its commit; no task is started inside a scope.
- UpsertMany.GroupingKeepsOutcome: with immutable columns the condition is sufficient only, since a guard may hold a row back for other reasons in either order. The table is a map from conflict keys to rows; errors of SQLite, rows without columns and several unique constraints are left out.
- SourceCache.SourceMemoryCache.Get: the clock is a parameter that nothing is assumed of.
- Lyrics.NormalizeLrcLyrics: starts from lines split into leading stamps and text, free of ID tags and word timings, with times as reals; detecting and writing LRC text is left out.
- AudioParts.IterPcmSlices: yields are collected into a list, and the rounded number of samples is a parameter.
- AudioParts.GetPartsFromPosition: durations are reals. The real-time pacer, which only waits, is left out.
- Barcodes.BarcodeLookupValues: ASCII digits and spaces; the lookup values of ISRC and MusicBrainz ids are rewrites by one pattern each.
- Palette.DerivePalette: real arithmetic with an arbitrary light curve that is 0 at black and 1 at white; extracting candidates from an image and caching palettes are left out.
- AlbumEvidence.CompareAlbumTrackFingerprint: positions are compared in the order of the base tracks, which is the insertion order of the source's dict.
- TrackMatching.TrackEvidenceIsSymmetric: `compare_track`, which applies a policy to several albums, and the comparisons of playlists, radios, audiobooks and podcasts are left out.
- Config entries, API reflection, logging, command lines, DSP coefficients and the startup order of the server: wide but shallow, or tied to code that is not part of this model.
