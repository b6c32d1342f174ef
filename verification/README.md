# Release, CI and mesh logic of the SMG gateway, modelled in Dafny

SMG is an inference gateway. This project models the parts of its repository whose correctness is a
matter of state, histories or text that has to survive being written and read again, and proves what
those parts promise. `dafny verify dfyconfig.toml` checks everything.

| modules | what they model |
|---|---|
| `Json`, `Delimited`, `IssueMarker`, `NodeHealth`, `NodeHealthHistory` | the hourly node-health monitor, whose only memory is a JSON marker in the bodies of its GitHub issues |
| `VersionLines`, `VersionSpelling`, `VersionOnly` | the spelling of version lines, and the classifier that decides whether a change moves nothing but release versions |
| `Semver`, `Carriers`, `Rewrites`, `VersionFiles`, `ClassifiedRewrites` | versions, how files spell them, rewriting them, and which rewrites the classifier lets pass |
| `CatFile`, `ReleaseTags`, `ReleaseCheck`, `ReleaseFix`, `ReleaseTool` | the release version checker: the batch reader, the tag table, the verdicts, the plan, the fixes and their fixpoint |
| `WorkerPool`, `PoolReuse`, `PoolOrder` | the one-slot worker pool of a test session, what it gives out again, and the order tests run in |
| `BenchGate` | the benchmark gate: medians, separation, and the rate of false alarms |
| `ToolCalls` | the Go assembler and the Python collector of streamed tool calls |
| `GpuSlices`, `ErrorMetrics` | the GPUs of a fleet, and the cross-check of a benchmark's failure counts |
| `RateLimitShard`, `RateLimitWrites`, `RateLimitMesh`, `RateLimitStreams`, `RateLimitFilter` | the mesh's rate-limit counters: merging, replicas with logs under an unreliable network, the streams between them, and what the send filter loses of them |
| `LastWriter`, `LastWriterGossip`, `SendWatermark` | its last-writer-wins keys, the acknowledgements that leave entries unsent, and the gossip between replicas |
| `Text`, `Collections`, `Tolerance` | strings, finite sets and real comparisons the others share |

Files are sequences of lines, times are seconds, floats are reals. Git, GitHub, Prometheus, processes and the
network are inputs: what they answer, and where they fail, is a parameter of the step that asks. Code that works
step by step is a method or a class proved against a specification; the theorems are about the specifications.

The main results:

- Over every history of monitor runs (cut short anywhere, with any source down) and human closes, each check has
  at most one open issue and it lists exactly what was found. A complete run closes an issue exactly when its check
  was evaluated and not found and no run noted it within ninety minutes.
- A marker reads back exactly when neither the check's key nor a scope holds marker text.
- Passing the version-only scanner is equality with the versions erased, an equivalence relation on whole trees.
- Once every fix of the release checker took, a second check succeeds and finds nothing exactly when no new version
  is carried by a tag with other code and every fix it looks at went where it can be read again, on any tree.
- Over every run of the worker pool, whatever fails or is interrupted, a set starts while a worker of one the pool held
  runs exactly when the stop of such a worker failed. No gateway comes up before every earlier one is down exactly when
  none comes up after one whose every shutdown raised. A pair once given out is given out again, to the same key and
  configuration, exactly while it is alive and answers and no call has evicted it.
- Exactly one of the C(2N, N) labelings of 2N distinct timings is a false alarm.
- Replicas that have the same writes have the same rate-limit state, whatever the order, repetition and compaction
  they came in; a deleted value never comes back, and a read is the latest
  epoch inserted since the newest delete with the largest count inserted in it.
- Over every run of replicas that send each other what is not acknowledged, with loss, repetition and reordering,
  whatever last-writer-wins entry is left out the peer has taken in for good; replicas with nothing left to send each
  other have the same values.
- For rate-limit keys, over every run of replicas whose streams carry in log order what their own watermark lets through,
  as far as the channel takes it, an entry is left out without loss exactly when all it shows was written by one
  replica. Every other entry is lost in some such run; in one of them a sender with nothing left to send reads a larger
  value than its peer.

Where the code and its comments differ, the model follows the code:

- The Go assembler's comment has the id, type and name come from the first delta that carries them; the code takes the
  last (`ToolCalls.BuiltFromLast`). A second id replaces the first (`ToolCalls.LaterIdWins`), and the two readings agree
  on a field exactly when the first and the last text carried for it are the same (`ToolCalls.FirstCarriedIff`).
- The monitor's body says an issue was clear for two runs. A run that found the check and stopped before its operation
  leaves no trace, so the next clear run can close the issue half an hour later (`NodeHealthHistory.CutShortForgets`);
  the ninety minutes were clear exactly when no such run is among them (`NodeHealthHistory.ClearIff`).
- The chart rewrite reports success on a chart whose version is an empty pair of quotes, which then has no readable
  version (`VersionFiles.EmptyQuotes`). Success is also reported for a pin with a second, plain line below the one read,
  which reads as before (`Rewrites.TwoPins`), and for a release tag set to a version that does not start with a digit,
  which cannot be read (`VersionFiles.DevTag`).
  `VersionFiles.VersionReadsBackIff` and `Rewrites.PinReadsBackIff` say exactly when a rewrite reads back.
- The watermark's comment has the sender skip keys the peer already has. That is so for last-writer-wins keys; a
  rate-limit entry can gain writes without its version changing (`RateLimitFilter.LeftOutSafelyIff`).
- A run counts as free of errors although it reports a rate that is not zero, when the rate is within the comparison's
  tolerance (`ErrorMetrics.TinyRateOverlooked`).
- The pool promises to stop the cached workers before it starts a new set. A stop that fails is passed over, and the next
  set starts beside that worker (`WorkerPool.StuckRunsOn`, `WorkerPool.NoStartWhileHeld`); an interrupted start leaves
  its workers running with no pool or caller to stop them (`WorkerPool.InterruptedRunsOn`,
  `WorkerPool.EmptyKeyHoldsNothing`).
- The pool's cleanup leaves the pool open when the gateway's shutdown raises (`WorkerPool.SessionPool.CleanUp`).
- Grouped ZMQ engines are counted in a worker's width, but neither in the step from one worker to the next nor in the
  decode pool's offset (`GpuSlices.GroupedFleetDisjointIff`). A prefill/decode fleet keeps its own wire on a ZMQ lane
  (e2e_test/fixtures/setup_backend.py:305-309), so only a backend named `pd_zmq` would reach this, and no test names one.

## Model

| member | source | states |
|---|---|---|
| `Json.LoadsDumps` | scripts/ci_node_health.py:595-598 | every value the monitor prints as JSON is read back as that value |
| `Json.PeelValue` | scripts/ci_node_health.py:663-669 | plain text found in a printed value stands in one of the value's strings, or behind the value |
| `Delimited.ExtractExact` | scripts/ci_node_health.py:587-600 | reading between the last prefix and the next suffix gives back a braced text, under any other text, exactly when it holds neither |
| `IssueMarker.MarkerTextExact` | scripts/ci_node_health.py:587-600 | the marker text is read back from a body exactly when it holds no marker delimiter, whatever stands above it |
| `IssueMarker.MarkerSurvivesIff` | scripts/ci_node_health.py:648-684 | a rendered state's marker survives exactly when its key and scopes hold no delimiter; details may hold anything |
| `IssueMarker.CleanStateIff` | scripts/ci_node_health.py:663-669 | printing adds no delimiter: the marker is clean exactly when the key and the scopes are |
| `IssueMarker.StateRoundTrip` | scripts/ci_node_health.py:603-622 | the state parsed from a rendered body is the state rendered |
| `IssueMarker.ClosedAsParsed` | scripts/ci_node_health.py:834-844 | the scopes listed for a closed issue are those of the state its open body parsed to |
| `IssueMarker.ClosedBodyNamesNothing` | scripts/ci_node_health.py:769-774 | a body the monitor closed an issue with lists no scope, so it acknowledges nothing |
| `NodeHealth.GroupByCheck` | scripts/ci_node_health.py:625-630 | one pass groups the findings by key, in order, under every key that occurs |
| `NodeHealth.KeysOfExact` | scripts/ci_node_health.py:625-630 | the keys are those of the findings, once each |
| `NodeHealth.ClosedAtIsLatest` | scripts/ci_node_health.py:834-844 | the close time kept for a scope is the latest among the closed issues that list it |
| `NodeHealth.Unsilenced` | scripts/ci_node_health.py:711-719 | the loop keeps exactly the findings no recent close silences |
| `NodeHealth.LiveExact` | scripts/ci_node_health.py:711-719 | an event finding is dropped exactly when an issue listing its scope was closed less than an hour ago |
| `NodeHealth.OpsForFresh` | scripts/ci_node_health.py:723-735 | a check without an open issue gets one, as planned |
| `NodeHealth.OpsForOpen` | scripts/ci_node_health.py:736-760 | an open issue's state is brought up to date, and the operations are the plan for it |
| `NodeHealth.CloseOps` | scripts/ci_node_health.py:762-775 | the second loop closes exactly the open issues that are resolved |
| `NodeHealth.UpdatesUnseen` | scripts/ci_node_health.py:762-775 | states that differ only where their check was found are closed alike |
| `NodeHealth.PlanOps` | scripts/ci_node_health.py:687-776 | the two loops compute the plan, though the second goes over the states the first brought up to date in place |
| `NodeHealthHistory.OpKeepsInv` | scripts/ci_node_health.py:779-797 | one planned operation keeps the invariant, touches its own check alone and leaves closed issues alone |
| `NodeHealthHistory.WrittenReadsBack` | scripts/ci_node_health.py:648-684 | what a run writes for a check is what the next run reads |
| `NodeHealthHistory.RunKept` | scripts/ci_node_health.py:973-1032 | a whole run is done with every check, and one cut short leaves each check done or as it was; done with live findings means: seen now, first seen as before, exactly the scopes found with the times each was first seen at, and for an event the time of its last comment, now where that was a full day ago |
| `NodeHealthHistory.EveryWorldInOrder` | scripts/ci_node_health.py:687-797 | in every world of every history each open issue reads back, is in order and is its check's only one |
| `NodeHealthHistory.OneIssuePerCheck` | scripts/ci_node_health.py:687-776 | after a complete run every live finding is in its check's one open issue with exactly those scopes; any other open issue is an event, unevaluated, or was seen under ninety minutes ago |
| `NodeHealthHistory.ResolvedWasRead` | scripts/ci_node_health.py:340-388 | an issue is resolved only by a reading of its own source: a fresh, complete, well-formed snapshot without failures, or Prometheus answering |
| `NodeHealthHistory.LastSeenKeepsUp` | scripts/ci_node_health.py:736-740 | no later world remembers less than a run that carried out the check's operation |
| `NodeHealthHistory.LastSeenWasNoted` | scripts/ci_node_health.py:736-740 | and what is remembered is the time of such a run, which found the check |
| `NodeHealthHistory.TouchedIsRecorded` | scripts/ci_node_health.py:973-1032 | a check that was found is recorded, with exactly its live scopes, once the run got to its operation |
| `NodeHealthHistory.CompleteNotes` | scripts/ci_node_health.py:779-797 | a complete run is one for every check it found, events apart |
| `NodeHealthHistory.CloseNeedsQuiet` | scripts/ci_node_health.py:762-775 | over every history an issue is closed only for a check that is no event, was evaluated and not found, at least ninety minutes after every run that noted it |
| `NodeHealthHistory.ClosesIff` | scripts/ci_node_health.py:762-775 | a complete run closes a check's open issue exactly then |
| `NodeHealthHistory.ClearIff` | scripts/ci_node_health.py:762-775 | a closing run has ninety minutes without a finding behind it exactly when no run in them found the check and stopped before its operation |
| `NodeHealthHistory.FirstClearKeeps` | scripts/ci_node_health.py:762-775 | the first clear run less than ninety minutes after one that noted the check does not close its issue |
| `NodeHealthHistory.CutShortForgets` | scripts/ci_node_health.py:779-797 | a history in which an issue is closed half an hour after a run that found its check and was cut short |
| `NodeHealthHistory.EventComments` | scripts/ci_node_health.py:736-760 | over every history an event issue has at most one monitor comment per full day since it was first seen |
| `NodeHealthHistory.CommentsExact` | scripts/ci_node_health.py:736-759 | over every history, a complete run adds one comment to the issue of an event with live findings whose last comment is a full day old, and none to any other issue |
| `NodeHealthHistory.CommentedWithinDay` | scripts/ci_node_health.py:736-759 | so after it the issue of every event with live findings was opened or commented on within the day |
| `NodeHealthHistory.FindingsIff` | scripts/ci_node_health.py:988-1010 | a run's findings are those of its three sources and those it makes of a source it cannot read |
| `NodeHealthHistory.EvaluatedIff` | scripts/ci_node_health.py:990-1004 | which checks a run evaluated: those of the runners as far as the report goes, of Prometheus unless it is down, and all others |
| `NodeHealthHistory.OutageIsReported` | scripts/ci_node_health.py:340-388 | over every history, a complete run that cannot read the runners' report, stale or incomplete in any way, or Prometheus, says so in an open issue |
| `NodeHealthHistory.FailedIsReported` | scripts/ci_node_health.py:360-384 | one that can names every pool with failed runners in an open issue |
| `NodeHealthHistory.AcknowledgementHolds` | scripts/ci_node_health.py:711-719 | for an hour after a human closes an event issue no operation of its check names a scope it listed, while the page shows it |
| `VersionLines.VersionSpanPut` | scripts/ci_version_only.py:96-107 | another version put in a version line's place is found in that place |
| `VersionSpelling.VersionIff` | scripts/ci_version_only.py:39-40 | a version is a digit and then digits, letters, dots, plus signs and dashes, written out |
| `VersionSpelling.KeyCharIff` | scripts/ci_version_only.py:52-54 | the characters of a pin's key and of a word, written out |
| `VersionSpelling.LineSpanIff` | scripts/ci_version_only.py:43-48 | a line is a version line of its kind, with its version in one place, exactly when the texts before and behind that place are those the kind spells |
| `VersionSpelling.PinSpanIff` | scripts/ci_version_only.py:52-54 | a pin is a key of the workspace, an opening brace, and before any closing one the first whole word `version` set to a quoted version |
| `VersionSpelling.VersionSpanIff` | scripts/ci_version_only.py:96-107 | a line's version is its version line's, or else a pin's in a manifest or the root manifest |
| `VersionOnly.LinePassesIff` | scripts/ci_version_only.py:119-128 | the scanner passes a pair of lines exactly when they are equal with their versions erased |
| `VersionOnly.LinePassesEquivalence` | scripts/ci_version_only.py:119-128 | passing is symmetric and transitive, so bumps undo and compose |
| `VersionOnly.TextReason` | scripts/ci_version_only.py:110-129 | the scan finds no reason exactly when the erased texts are equal, and then adds exactly the versions that moved |
| `VersionOnly.LockReason` | scripts/ci_version_only.py:132-160 | the lock file passes exactly when its tables agree and its entries do with the workspace's own versions erased |
| `VersionOnly.Classify` | scripts/ci_version_only.py:170-196 | a change is accepted exactly when every changed file is a modified carrier, equal with versions erased, and some version moved |
| `VersionOnly.ClassifyDecides` | scripts/ci_version_only.py:163-196 | on a true diff the per-file tests decide equality of the whole trees but for versions |
| `VersionOnly.SameTreeEquivalence` | scripts/ci_version_only.py:170-196 | that equality is an equivalence relation |
| `VersionOnly.ChangesCompose` | scripts/ci_version_only.py:170-196 | two accepted changes in a row are accepted as one exactly when some version moved over both |
| `Semver.RenderRoundTrip` | scripts/check_release_versions.py:247-255 | a version written out is parsed back |
| `Semver.ParseTripleIff` | scripts/check_release_versions.py:130-130 | a version is three numbers with a dot between and nothing else |
| `Semver.BumpIsNext` | scripts/check_release_versions.py:245-255 | a bump raises its part by one, resets the parts behind it, and is the least version above that does |
| `Semver.ReleaseRoundTrip` | scripts/check_release_versions.py:146-152 | so is a release, final or candidate |
| `Semver.ParseReleaseIff` | scripts/check_release_versions.py:131-131 | a release is a triple, and for a candidate `-rc.` and one more number |
| `Semver.KeyOrderIsPrecedence` | scripts/check_release_versions.py:146-152 | the sort key orders releases by item 11 of Semantic Versioning 2.0.0, totally |
| `Semver.FirstFree` | scripts/check_release_versions.py:556-559 | the search for a free patch number ends, past exactly the versions that are taken |
| `Semver.Propose` | scripts/check_release_versions.py:552-560 | the loop ends with the proposal and lists exactly the versions it stepped past |
| `Semver.ProposalIsLeast` | scripts/check_release_versions.py:552-560 | the proposal is the least untagged version at or above the bumped one on its major and minor, and above the present one |
| `Carriers.SearchIs` | scripts/check_release_versions.py:181-184 | a match with none before it is where a search stops |
| `Rewrites.AssignReadsBack` | scripts/check_release_versions.py:189-194 | whatever the file, a rewritten assignment is found again in its place with the new version |
| `Rewrites.TagReadsBack` | scripts/check_release_versions.py:202-211 | the tag named by the version read is the tag read, and the rewritten one reads back |
| `Rewrites.ChartRefilled` | scripts/check_release_versions.py:195-201 | a version line with the named version replaced reads as the new one, unless it was an empty pair of quotes; one that could not be read still cannot |
| `Rewrites.PinReadsBackIff` | scripts/check_release_versions.py:217-227 | a pin that was rewritten reads back exactly when it already said so or was read from a plainly spelled line, whatever other lines there are |
| `Rewrites.PinTakesIff` | scripts/check_release_versions.py:223-228 | a pin's rewrite takes exactly when a line of the result opens with the key and sets the new version |
| `Rewrites.OtherPins` | scripts/check_release_versions.py:223-227 | and no other key's pin moves |
| `Rewrites.TwoPins` | scripts/check_release_versions.py:217-227 | two lines of one key, the first not plain: the rewrite takes and the old pin is read |
| `VersionFiles.AssignTakes` | scripts/check_release_versions.py:189-194 | an assignment can be rewritten exactly where one can be read |
| `VersionFiles.InheritsIff` | scripts/check_release_versions.py:137-139 | a crate's manifest inherits its version exactly when a line begins with one of the two spellings, with any blanks around the signs |
| `VersionFiles.AssignWritten` | scripts/check_release_versions.py:187-194 | every readable manifest or module is rewritten and reads as the new version, still spelled out and not inherited |
| `VersionFiles.ChartReadsBackIff` | scripts/check_release_versions.py:195-201 | whatever the chart, it reads as the new version exactly when it did before, or the line rewritten is the line read and no empty pair of quotes, or the next readable line says so |
| `VersionFiles.ChartTakes` | scripts/check_release_versions.py:195-201 | a chart read and rewritten on one line takes exactly when it has an appVersion |
| `VersionFiles.OneLineChart` | scripts/check_release_versions.py:195-201 | with one version line it takes exactly when that is named as it is read and an appVersion stands beside it, and then reads back exactly when it was no empty pair of quotes |
| `VersionFiles.TagReadsBackIff` | scripts/check_release_versions.py:202-211 | a rewritten release tag reads back exactly when the new version starts with a digit and has no blanks, and then it is rewritten |
| `VersionFiles.VersionReadsBackIff` | scripts/check_release_versions.py:187-214 | a rewrite that took reads back exactly when `Rewritable` says so, for every spelling and every file |
| `VersionFiles.EmptyQuotes` | scripts/check_release_versions.py:195-201 | an empty quoted chart version is rewritten into one that cannot be read |
| `VersionFiles.DevTag` | scripts/check_release_versions.py:202-211 | so is a release tag, by a version that starts with a letter |
| `ClassifiedRewrites.AssignAccepted` | scripts/ci_version_only.py:44-46 | a rewritten assignment passes the classifier exactly when it led its line in the checker's own spelling |
| `ClassifiedRewrites.ChartAccepted` | scripts/ci_version_only.py:47-47 | a chart's rewritten version line passes exactly when it held a version |
| `ClassifiedRewrites.AppAccepted` | scripts/ci_version_only.py:47-47 | its appVersion line passes exactly when it was the plain quoted spelling of a version |
| `ClassifiedRewrites.TagAccepted` | scripts/ci_version_only.py:48-48 | a rewritten tag passes exactly when it stood alone on its line |
| `ClassifiedRewrites.RewriteAccepted` | scripts/check_release_versions.py:187-214 | a rewrite of the line that is read is version-only to the classifier exactly when the file was canonically spelled |
| `ClassifiedRewrites.RewriteTouches` | scripts/check_release_versions.py:187-214 | it changes the version line, and a chart's appVersion line, and no other |
| `ClassifiedRewrites.PinRewriteAccepted` | scripts/check_release_versions.py:223-227 | a rewritten pin of a workspace crate passes exactly when the pinned string was a version |
| `CatFile.TextsAt` | scripts/check_release_versions.py:329-351 | the loop reads every answer off the stream, or fails where an answer cannot be read |
| `CatFile.ReadInvertsStream` | scripts/check_release_versions.py:329-351 | for every list of newline-free requests and every contents, reading gives back exactly the objects' texts and ends at the stream's end |
| `CatFile.TextsExact` | scripts/check_release_versions.py:339-351 | a request has a text exactly when its object exists, and it is that object's |
| `ReleaseTags.SortedTags` | scripts/check_release_versions.py:323-327 | exactly the release tags, sorted by precedence, those of one version in the order listed |
| `ReleaseTags.ReleaseTagIff` | scripts/check_release_versions.py:323-327 | a release tag is `v` and a release |
| `ReleaseTags.SpellsIff` | scripts/check_release_versions.py:162-164 | how a component's version file is spelled, by what it is and how it is named |
| `ReleaseTags.TextAtIff` | scripts/check_release_versions.py:261-263 | a component's copy at a ref is under its own path, or else where crates were before they moved |
| `ReleaseTags.TaggedVersions` | scripts/check_release_versions.py:425-448 | the table has a version exactly when a release tag carries it, under the newest such tag |
| `ReleaseTags.TableIsNewest` | scripts/check_release_versions.py:447-447 | filling the table in tag order keeps the newest tag of a version |
| `ReleaseCheck.CheckComponent` | scripts/check_release_versions.py:451-492 | the branches come to the verdict below |
| `ReleaseCheck.VerdictExact` | scripts/check_release_versions.py:451-492 | on git's answers and the tree alone: a component is unbumped exactly when the comparison tag carries its version and files changed since that tag, or another release tag does and files changed since the newest such one; how many files changed and since which tag; its pin is reported exactly when files changed since the comparison tag, it is not unbumped and the pin differs; and when there is no verdict. Git lists every tag once |
| `ReleaseTool.Repo.ReadTables` | scripts/check_release_versions.py:425-448 | the tables of all components are those of the release tags |
| `ReleaseTool.Repo.Examine` | scripts/check_release_versions.py:590-652 | the walk computes the plan, with the mirrors measured against the version the gateway will have |
| `ReleaseTool.Repo.Apply` | scripts/check_release_versions.py:756-795 | the three walks carry out every write of the plan in order and count those that did not take |
| `ReleaseTool.Repo.Fix` | scripts/check_release_versions.py:809-880 | a fixing run changes nothing unless it fixes, and ends done exactly with every write carried out |
| `ReleaseFix.AllSettle` | scripts/check_release_versions.py:756-795 | of writes to different places exactly those show at the end whose place could be read again, and no other place changed |
| `ReleaseFix.WritesNoClash` | scripts/check_release_versions.py:782-794 | no two fixes of a plan go to one place |
| `ReleaseFix.FixReachesFixpoint` | scripts/check_release_versions.py:590-631 | after fixes that all took, a second check succeeds and finds nothing exactly when no new version is a tag's with other code and every fix it looks at reads back by the conditions above |
| `ReleaseFix.ReleaseFixIsFinal` | scripts/check_release_versions.py:756-795 | against a release tag, with an override no release tag carries, the last condition alone decides |
| `WorkerPool.SessionPool.StopWorkers` | e2e_test/infra/worker.py:1430-1440 | every worker not tried before is stopped or its failed stop passed over, up to an interrupt |
| `WorkerPool.SessionPool.EvictLocked` | e2e_test/infra/worker_pool.py:305-314 | the gateway is shut down first, each worker's stop tried in any case, and the slot emptied unless that was interrupted |
| `WorkerPool.SessionPool.StartWorkers` | e2e_test/infra/worker.py:1336-1427 | a start that raises has tried to stop what it spawned; an interrupted one has not |
| `WorkerPool.SessionPool.AcquireWorkers` | e2e_test/infra/worker_pool.py:72-190 | the new state and outcome of an acquire, with any stop failing and the start raising or interrupted |
| `WorkerPool.SessionPool.AcquirePair` | e2e_test/infra/worker_pool.py:192-291 | the same for a gateway and its engines, with the gateway not spawned or dying after it |
| `WorkerPool.SessionPool.AbortPair` | e2e_test/infra/worker_pool.py:267-272 | a pair given up: its gateway first, its workers in any case |
| `WorkerPool.SessionPool.Discard` | e2e_test/infra/worker_pool.py:293-297 | only the pair of that very gateway is evicted |
| `WorkerPool.SessionPool.CleanUp` | e2e_test/infra/worker_pool.py:299-303 | the slot is evicted, and the pool closed unless that raised |
| `WorkerPool.EveryRunKeeps` | e2e_test/infra/worker_pool.py:72-314 | every sequence of calls, with any failures and interrupts, keeps the slot, the record and their agreement: every worker ever spawned is in the slot, had its stop tried, was handed out or is lost |
| `WorkerPool.StartsBeside` | e2e_test/infra/worker_pool.py:158-190 | over every run, when a set starts, a worker spawned before runs exactly when its stop failed, or it was handed out or lost and never stopped |
| `WorkerPool.HeldRunsOnIff` | e2e_test/infra/worker_pool.py:158-190 | so a worker of a set the pool held runs on exactly when its stop failed |
| `WorkerPool.NoStartWhileHeld` | e2e_test/infra/worker_pool.py:158-190 | a set starts while a worker of one the pool held runs exactly when the stop of such a worker failed |
| `WorkerPool.StuckRunsOn` | e2e_test/infra/worker.py:1430-1440 | a run in which a set starts beside a worker of the set before |
| `WorkerPool.EmptyKeyHoldsNothing` | e2e_test/infra/worker_pool.py:305-314 | an empty key means no workers and no gateway, and a worker runs exactly when its stop failed, or it was handed out or lost and never stopped |
| `WorkerPool.InterruptedRunsOn` | e2e_test/infra/worker.py:1398-1427 | an interrupted start leaves a worker running under an empty key |
| `WorkerPool.ReusedIsExact` | e2e_test/infra/worker_pool.py:158-164 | a reused set was started with exactly the key asked for, runs and is alive |
| `WorkerPool.ReusedPairIsExact` | e2e_test/infra/worker_pool.py:233-240 | a reused pair was started with exactly this key and configuration, runs and answers |
| `PoolReuse.PairIsReused` | e2e_test/infra/worker_pool.py:233-291 | over every run, once a pair was given out and no shutdown of its gateway was noted since, the pool is as it was; another call gets the pair back for the same key and configuration with every worker alive and a gateway that runs and answers, an error where asking it breaks, and in every other case, a timeout included, the pair is evicted |
| `PoolReuse.SetAnswers` | e2e_test/infra/worker_pool.py:106-190 | a call for a set while one is held is refused for workers with settings of their own, gets that set back for the same key with every worker alive, and otherwise another |
| `PoolReuse.SetIsReused` | e2e_test/infra/worker_pool.py:158-190 | over every run, a set given out for a cached key is held and given out again |
| `PoolReuse.StartIsExact` | e2e_test/infra/worker.py:1336-1427 | a start spawns exactly the workers asked for, or as many of them as it got to |
| `PoolReuse.EvictIff` | e2e_test/infra/worker_pool.py:305-314 | an eviction raises exactly when the shutdown did or the stop was cut off, and empties the slot unless it was cut off |
| `PoolReuse.EndsExact` | e2e_test/infra/worker_pool.py:293-303 | what a discard and a cleanup leave and how they end, with the pool closed exactly when the cleanup did not raise |
| `WorkerPool.ClosedForever` | e2e_test/infra/worker_pool.py:105-106 | a closed pool stays closed and empty and gives nothing out |
| `WorkerPool.GatewaysApartIff` | e2e_test/infra/worker_pool.py:305-314 | over every run, gateways that died while coming up included, none comes up before every earlier one is down exactly when none comes up after one whose every shutdown raised |
| `WorkerPool.GatewaysTakeTurns` | e2e_test/infra/worker_pool.py:305-314 | so while no shutdown raises, gateways take turns |
| `WorkerPool.GatewayForgotten` | e2e_test/infra/worker_pool.py:305-314 | after a shutdown that raises, a second gateway comes up beside the first, for pairs of any size |
| `PoolOrder.BetweenIsSame` | e2e_test/fixtures/hooks.py:621-654 | in sort-key order everything between two tests of one backend and model is of that backend and model |
| `PoolOrder.StartsAreChanges` | e2e_test/infra/worker_pool.py:158-190 | on healthy workers the pool starts a set exactly when the key changes |
| `PoolOrder.SortedStartsLeast` | e2e_test/fixtures/hooks.py:617-617 | in sorted order every key is started once, and no permutation of the tests starts fewer sets |
| `BenchGate.MedianBetween` | scripts/bench_gate.py:303-309 | a median lies between its values' minimum and maximum |
| `BenchGate.MedianIff` | scripts/bench_gate.py:303-309 | by counting: the median is the one value with at most half of the others on either side, or halfway between the two middle ones |
| `BenchGate.NoneBetween` | scripts/bench_gate.py:303-309 | between which no value lies |
| `BenchGate.VerdictExact` | scripts/bench_gate.py:345-371 | every verdict but the plain one has its exact condition: missing and regression, which fail the job, new, report-only, suspect, improvement |
| `BenchGate.RegressionExact` | scripts/bench_gate.py:349-371 | a regression is exactly every pull-request run above every base run with the medians apart by more than the threshold, zero and negative base medians included |
| `BenchGate.SwapNeverRegresses` | scripts/bench_gate.py:337-371 | the sides of a regression swapped are no regression |
| `BenchGate.OneRunCannotRegress` | scripts/bench_gate.py:10-15 | with two disjoint overlapping pairs, no other value of any single run makes a regression |
| `BenchGate.OneRunSeparatesIff` | scripts/bench_gate.py:337-342 | some value of some single run separates the sides exactly when no two overlapping pairs are disjoint |
| `BenchGate.LabelingsCounted` | scripts/bench_gate.py:10-15 | the labelings of n runs with k base runs are C(n, k) |
| `BenchGate.FalseAlarmRate` | scripts/bench_gate.py:10-15 | of the C(2N, N) labelings of distinct timings exactly one has every pull-request run above every base run |
| `BenchGate.ClaimedRates` | scripts/bench_gate.py:10-15 | one in 20, 70 and 252 at three, four and five runs a side |
| `BenchGate.LabelledRow` | scripts/bench_gate.py:337-342 | a labeling is a false alarm exactly when the row it labels is separated upwards |
| `BenchGate.InterleavedOrder` | scripts/bench_gate.py:247-253 | every repeat runs both sides, taking turns at going first |
| `BenchGate.Collect` | scripts/bench_gate.py:375-379 | an id's values are those of the runs that have it, in run order |
| `BenchGate.ValuesExact` | scripts/bench_gate.py:375-379 | a run that has the id gives one value, behind those of the runs before it that have it |
| `BenchGate.Compare` | scripts/bench_gate.py:374-391 | one judged row for every id of either side, in order |
| `ToolCalls.Assembler.Add` | bindings/golang/tool_calls.go:34-56 | the calls after a batch are the pieces taken one by one |
| `ToolCalls.Assembler.Assembled` | bindings/golang/tool_calls.go:59-73 | the calls by strictly increasing index |
| `ToolCalls.AssembledByIndex` | bindings/golang/tool_calls.go:34-56 | what stands under an index depends on that index's pieces alone |
| `ToolCalls.BatchesJoin` | bindings/golang/tool_calls.go:34-56 | batching the pieces does not matter |
| `ToolCalls.BuiltFromLast` | bindings/golang/tool_calls.go:34-56 | a call's id, type and name are each from the last piece that carries one |
| `ToolCalls.FirstCarriedIff` | bindings/golang/tool_calls.go:25-28 | each is from the first piece that carries one exactly when the first and last texts carried are the same |
| `ToolCalls.LaterIdWins` | bindings/golang/tool_calls.go:25-28 | two pieces with different ids build the second |
| `ToolCalls.CutIsBuilt` | bindings/golang/tool_calls.go:34-56 | a call cut into pieces, with those fields on the first, is built again |
| `ToolCalls.CallsReassembled` | bindings/golang/tool_calls.go:34-73 | cut, interleaved and batched in any way, the calls come back |
| `ToolCalls.CollectStreamedChat` | e2e_test/infra/streams.py:48-83 | the collector's calls are the assembler's in id, name and arguments, by increasing index, with choice 0's text and last finish reason |
| `ToolCalls.ChoiceZeroIff` | e2e_test/infra/streams.py:48-83 | a chunk's choice is its first with index 0 |
| `ToolCalls.CollectedExact` | e2e_test/infra/streams.py:48-83 | a chunk adds the text and the pieces of that choice, behind those before, and nothing without one |
| `ToolCalls.LastFinishIff` | e2e_test/infra/streams.py:48-83 | the finish reason is the last one such a choice gives |
| `ToolCalls.CollectorReassembles` | e2e_test/infra/streams.py:48-83 | on a stream of cut calls it holds the original ids, names and arguments |
| `GpuSlices.Host.StopWorkers` | e2e_test/infra/worker.py:1430-1440 | every worker is stopped but those whose stop raised |
| `GpuSlices.Host.StartWorkers` | e2e_test/infra/worker.py:1336-1427 | consecutive slices from the offset on; when a launch or the wait fails, only those of its workers run on whose stop raised |
| `GpuSlices.Host.StartPool` | e2e_test/fixtures/setup_backend.py:572-621 | the same for a pool, in one go or one by one |
| `GpuSlices.StepIsWidth` | e2e_test/fixtures/setup_backend.py:602-616 | the step between workers started one by one is their width exactly when nothing is grouped |
| `GpuSlices.OneByOneIsBatch` | e2e_test/fixtures/setup_backend.py:588-621 | one by one the workers get the batch's slices exactly when nothing is grouped or there is one |
| `GpuSlices.TileCovers` | e2e_test/infra/worker.py:1336-1369 | slices in a row cover exactly their range |
| `GpuSlices.PdFleetTiles` | e2e_test/fixtures/setup_backend.py:705-740 | the slices of a prefill/decode fleet are disjoint and tile one range, whichever way either pool starts |
| `GpuSlices.EpdFleetTiles` | e2e_test/fixtures/setup_backend.py:827-857 | so are those of an encode/prefill/decode fleet |
| `GpuSlices.GroupedFleetDisjointIff` | e2e_test/fixtures/setup_backend.py:725-725 | with workers on both sides, started either way, the slices are disjoint exactly when nothing is grouped |
| `ErrorMetrics.Gather` | e2e_test/benchmarks/nightly_summarize.py:237-289 | the failures and attempts of every source, or an early stop at an invalid count or more completions than attempts |
| `ErrorMetrics.FailingCounts` | e2e_test/benchmarks/nightly_summarize.py:237-289 | the failed records are counted, and none exactly when no record failed |
| `ErrorMetrics.TotalAdds` | e2e_test/benchmarks/nightly_summarize.py:237-289 | the counts by code add up, to zero exactly when all are |
| `ErrorMetrics.AgreementExplains` | e2e_test/benchmarks/nightly_summarize.py:280-292 | the lists agree exactly on the attempts and failures that explain every count, completions included |
| `ErrorMetrics.Metrics` | e2e_test/benchmarks/nightly_summarize.py:235-325 | a rate is derived from counts exactly when attempted = completed + failed explains them all, lies in [0, 1], and a run is error-free exactly as `ErrorFree` says |
| `ErrorMetrics.ErrorFreeMeansZero` | e2e_test/benchmarks/nightly_summarize.py:145-147 | an error-free run's every source of failures says zero, a reported rate up to the tolerance |
| `ErrorMetrics.TinyRateOverlooked` | e2e_test/benchmarks/nightly_summarize.py:314-320 | a reported rate within the tolerance is overlooked |
| `RateLimitShard.FrontAbsorbs` | crates/mesh/src/crdt_kv/epoch_max_wins.rs:164-197 | what a merge leaves out never matters to a later one, however far the tombstone moves |
| `RateLimitShard.ScanIsFront` | crates/mesh/src/crdt_kv/epoch_max_wins.rs:173-190 | the scan from the newest point down keeps exactly the points no newer one is as large as |
| `RateLimitShard.MergeMeans` | crates/mesh/src/crdt_kv/epoch_max_wins.rs:229-238 | a merge is the front of both states' points after the newer tombstone, in canonical order |
| `RateLimitShard.MergeLaws` | crates/mesh/src/crdt_kv/epoch_max_wins.rs:229-238 | merging is idempotent and commutative |
| `RateLimitShard.MergeAssociates` | crates/mesh/src/crdt_kv/epoch_max_wins.rs:229-238 | and associative |
| `RateLimitShard.OrderMattersOtherwise` | crates/mesh/src/crdt_kv/epoch_max_wins.rs:173-191 | with two values under one version the order of a merge shows |
| `RateLimitShard.ReadIsLargest` | crates/mesh/src/crdt_kv/epoch_max_wins.rs:148-158 | a live state reads the latest epoch written after the tombstone with the largest count written in it; a tombstone means there is none |
| `RateLimitWrites.ApplyHolds` | crates/mesh/src/crdt_kv/engine/rate_limit.rs:100-160 | applying an entry gives what all the writes of both come to |
| `RateLimitWrites.IdIsNewest` | crates/mesh/src/crdt_kv/epoch_max_wins.rs:250-268 | no write of an entry is newer than the version it travels under |
| `RateLimitWrites.IdIsOne` | crates/mesh/src/crdt_kv/epoch_max_wins.rs:250-268 | which is the version of one of its writes |
| `RateLimitMesh.FoldHolds` | crates/mesh/src/crdt_kv/epoch_max_wins.rs:285-318 | merging the entries of a log one after the other never fails and gives what all their writes come to |
| `RateLimitMesh.CompactHolds` | crates/mesh/src/crdt_kv/operation.rs:190-212 | a compacted log is one entry, which stands for every write of the log |
| `RateLimitMesh.OwnExact` | crates/mesh/src/crdt_kv/engine/rate_limit.rs:247-300 | a replica's own write always changes its state, and so is logged |
| `RateLimitMesh.ReceiveNode` | crates/mesh/src/crdt_kv/engine/rate_limit.rs:339-402 | after a batch the log is one entry, the replica's state |
| `RateLimitMesh.ObserveExact` | crates/mesh/src/crdt_kv/replica.rs:86-101 | the same for the entries of a batch |
| `RateLimitMesh.StepKeeps` | crates/mesh/src/crdt_kv/engine/rate_limit.rs:247-402 | every write, compaction, send, batch and acknowledgement keeps the replicas' states, logs, clocks and versions in order, and every acknowledgement true |
| `RateLimitMesh.EveryRunKeeps` | crates/mesh/src/crdt_kv/engine/rate_limit.rs:247-402 | so every run does |
| `RateLimitMesh.SameWritesSameState` | crates/mesh/src/crdt_kv/engine/rate_limit.rs:339-402 | over every run, replicas with the same writes have the same state |
| `RateLimitMesh.ReadsLargest` | crates/mesh/src/crdt_kv/engine/rate_limit.rs:302-304 | over every run, a replica reads the latest epoch inserted after the newest delete it has, with the largest count inserted in that epoch, and nothing exactly when there is no such insert |
| `RateLimitMesh.NothingResurrects` | crates/mesh/src/crdt_kv/epoch_max_wins.rs:5-10 | over every run, no live point is older than a delete the replica has |
| `RateLimitMesh.DeleteEmpties` | crates/mesh/src/crdt_kv/engine/rate_limit.rs:277-300 | a delete wins over everything its replica has seen |
| `RateLimitMesh.PutShows` | crates/mesh/src/crdt_kv/engine/rate_limit.rs:247-275 | a put shows at once, in a state that reads no smaller |
| `RateLimitMesh.PutReads` | crates/mesh/src/crdt_kv/epoch_max_wins.rs:128-158 | over every run, a replica reads its put afterwards exactly when nothing stood, the epoch is later, or the count is larger in the same epoch; otherwise it reads what it read before |
| `RateLimitMesh.LaterEpochResets` | crates/mesh/src/crdt_kv/epoch_max_wins.rs:164-197 | over every run, a put of a later epoch than every standing insert is all that is kept |
| `LastWriter.NewestStands` | crates/mesh/src/crdt_kv/engine/lww.rs:147-206 | after any sequence of writes the newest stands |
| `LastWriter.SameWritesSameValue` | crates/mesh/src/crdt_kv/engine/lww.rs:330-410 | the same writes in any order and number give the same value |
| `LastWriter.Fold` | crates/mesh/src/crdt_kv/engine/lww.rs:247-251 | the fold is the newest of the writes |
| `LastWriter.FoldPreserves` | crates/mesh/src/crdt_kv/operation.rs:190-212 | a log compacted to its newest write means what it meant, whatever follows |
| `SendWatermark.CrdtWatermark.Advance` | crates/mesh/src/crdt_kv/watermark.rs:68-77 | advancing takes the newer version of every key |
| `SendWatermark.MergeMaxLaws` | crates/mesh/src/crdt_kv/watermark.rs:65-77 | idempotent, commutative and associative |
| `SendWatermark.AckOnlyNarrows` | crates/mesh/src/crdt_kv/watermark.rs:51-58 | what passes two acknowledgements together is what passes each |
| `SendWatermark.FromOps` | crates/mesh/src/crdt_kv/watermark.rs:34-49 | the newest version of every key, and of no other |
| `LastWriterGossip.CompactExact` | crates/mesh/src/crdt_kv/operation.rs:190-212 | a compacted log holds the newest write of every key the log had, once, and no other |
| `LastWriterGossip.StepKeeps` | crates/mesh/src/crdt_kv/engine/lww.rs:253-410 | every write, compaction, send, batch, acknowledgement and new stream keeps the log behind every value and every acknowledgement true |
| `LastWriterGossip.EveryRunKeeps` | crates/mesh/src/transport/peer_stream.rs:113-265 | so every run does |
| `LastWriterGossip.WriteStands` | crates/mesh/src/crdt_kv/engine/lww.rs:255-305 | over every run, a replica's own write stands at once over whatever it held, is logged, and changes no other key |
| `LastWriterGossip.ObserveExact` | crates/mesh/src/crdt_kv/replica.rs:86-101 | a clock moves at least once for every write observed, and past the latest of them and itself by no more than that |
| `LastWriterGossip.LeftOutIsAbsorbed` | crates/mesh/src/transport/peer_stream.rs:141-150 | over every run, an entry left out would change nothing at the peer, then and at any time later |
| `LastWriterGossip.DoneAgree` | crates/mesh/src/transport/peer_stream.rs:141-150 | over every run, replicas with nothing left to send each other have the same values |
| `LastWriterGossip.ExchangeIsDone` | crates/mesh/src/transport/peer_stream.rs:113-265 | from any state, one round that is delivered and acknowledged leaves nothing to send |
| `RateLimitStreams.AllowedIsEnd` | crates/mesh/src/transport/peer_stream.rs:141-150 | of a log in ascending order the filter lets through exactly an end |
| `RateLimitStreams.PushKeepsStream` | crates/mesh/src/transport/peer_stream.rs:141-163 | a round put behind what is on its way, up to any entry, leaves the receiver no gap in what it has of a writer |
| `RateLimitStreams.MoveKeeps` | crates/mesh/src/transport/peer_stream.rs:111-163 | every write, compaction, round, cut, frame and acknowledgement keeps that, and every watermark true: the peer has all the sender's own writes up to it, and the newest write of each entry it leaves out |
| `RateLimitStreams.EveryNetKeeps` | crates/mesh/src/transport/peer_stream.rs:111-163 | so every run does |
| `RateLimitStreams.KnownInOrder` | crates/mesh/src/transport/peer_stream.rs:141-163 | over every run, with a write a replica has every earlier write of the same writer |
| `RateLimitFilter.LeftOutIsHeld` | crates/mesh/src/transport/peer_stream.rs:141-150 | over every run, a peer holds every entry left out that shows the writes of one replica, whatever version it acknowledged |
| `RateLimitFilter.LeftOutSafelyIff` | crates/mesh/src/transport/peer_stream.rs:141-150 | for every entry: in every run that leaves it out the peer holds it, exactly when all it shows was written by the replica of its version |
| `RateLimitFilter.OthersLost` | crates/mesh/src/crdt_kv/epoch_max_wins.rs:285-318 | for every entry, a run of whole rounds, in order, that gets the writes of the replica of its version through and leaves the rest behind |
| `RateLimitFilter.OlderLargerLost` | crates/mesh/src/transport/peer_stream.rs:141-150 | for any two inserts of different replicas, the older one larger, a run that ends with a sender that has nothing left to send and reads the larger, and a peer that reads the smaller |

## Left out

- Calendar times: `isoformat` and its parsing are a decimal number of seconds; time zones are not modelled.
- The text of titles, tables and comments beyond what the marker shares a body with, and the order of table rows.
- Humans editing or reopening monitor issues, and pull requests in the issue listing.
- The queries behind the findings: which conditions Prometheus, GitHub and the runner snapshot report is an input.
- VersionFiles.AssignTakes: not for a new version with a backslash, an escape in the replacement text (scripts/check_release_versions.py:190-206).
- VersionFiles.AssignWritten: the same; so do the chart and tag rewrites take the new version as it is.
- Regular expressions with blanks, or a quoted text (`[^"]*`), that run over a line's end, digits and letters beyond ASCII, and the line breaks only `splitlines` knows.
- `files_changed`, `bump_level` and `commits_since`: how many files changed since a ref and which bump the commits ask for are inputs.
- The planning mode with a candidate version, the prompt and the printed report of the release checker.
- ReleaseFix.FixReachesFixpoint: assumes a gateway version that is not empty, because a chart set to an empty version is read from whatever quotes it leaves, and takes a backslash in it as plain text, like the rewrites.
- ReleaseTool.Repo.Fix: takes no override that is not `X.Y.Z`; the command refuses one before it starts.
- How `carriers` and `workspace_keys` are collected from the component tables: the classifier's table is an input.
- UTF-8 decoding of the batch stream; sizes and texts are in bytes.
- The lock of the worker pool, `get_pool` and the exit handler: calls are sequential, as the lock makes them.
- The collection filters of the test session and their accounting: list filters without a property across steps.
- Floating-point rounding, markdown and charts of the benchmark tools, and running the binaries.
- Sorting in place, of index slices, collected tests and log entries: modelled on sequences, which keeps the order and loses the aliasing.
- GpuSlices.Host.StartWorkers: catches what the code catches, exceptions; an interrupt, which leaves every worker launched running, is modelled in `WorkerPool` only.
- What a shutdown does: `GatewayDown` means that the call returned, and killing the process tree passes over errors (e2e_test/infra/process_utils.py:177-199).
- The encodings of deltas and chunks, and choices other than choice 0.
- Ports, staggering and deadlines of starting workers; only which slices are assigned and what a failure leaves running. A worker whose launch raised counts as running until it is stopped.
- Tombstone collection after its grace period and the truncation of an oversized log: both drop writes on purpose.
- Saturation of Lamport timestamps at 64 bits, and the binary encoding of shards, points and watermarks, malformed payloads included.
- RateLimitMesh.EveryRunKeeps: one key, since every key is merged on its own, with writes to others as ticks of the clock; subscriptions and change events are not modelled.
- The order of a batch in `RateLimitMesh` and `LastWriterGossip`: it is any part of what the filter lets through in any order, more than a sender does. `RateLimitStreams` keeps the order. When a log is compacted is left to the run.
- RateLimitStreams.MoveKeeps: a put is one step, although its tick, merge and append are not under one lock (crates/mesh/src/crdt_kv/engine/rate_limit.rs:247-262); two puts of one key at once on one replica could be logged in the other order.
- Acknowledgements of peers that name no replica, which suppress everything at or below their timestamp.
- The gateway's routing, parsers, protocol crates and bindings other than the tool-call assembler.
