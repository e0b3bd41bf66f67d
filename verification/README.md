# A verified model of the validation run

The program takes a pull request's SQL files, clones the target repository into a temporary directory, starts
a throwaway Postgres container, runs `dbflow:sync` and then `dbflow:rollback` of the release in Maven
containers, and reports whether both pass. This project models the logic of that run and proves what it is
relied on for:

* the run itself (`Orchestrator`, `RunSpec`): its thirteen steps with all early exits, the progress events,
  the report and its status, and the order of its outside effects;
* its cleanup (`Registry`, `RunCleanup`, `Containers`, `Workspace`), as executed by one run on a world of
  files, containers and networks, and the registry's own protocol under concurrent calls (`RegistryProtocol`);
* the rewriting of text: driver injection (`PomPatch`), the properties editor and the second reader of the
  same file (`Properties`, `SimpleReader`, `Engine`), redaction of secrets (`Scrub`);
* the file transformations: input overlay (`Overlay`), workspace moves (`Workspace`), restoring a container's
  work tree (`Untar`), extraction of embedded files behind a sentinel (`Extraction`);
* the rules gate and the path translation into the validator's container (`RulesGate`), the bounded retries and
  the readiness probe (`Containers`, `Readiness`), and the Maven parameters and results (`MavenRunner`).

`Text`, `Trim` and `FileSys` hold the string operations, the line scanner and the abstract file tree they share.

What the run cannot control is nondeterministic or a parameter. Whether a file operation, a Docker call or a
cleaner succeeds is chosen freely wherever it is made, and a failed operation may have done any part of its
work. Failures are counted, so that a method that works on files or asks Docker is shown to fail only when one
of its own operations does. The answers of the other dependencies (clone, engine detection, probe, validation,
Maven goals and so on) are one record, `RunSpec.Env`, over which every theorem is quantified; while a run goes
on, every dependency may also write anything below the temporary directory: what the calls of a run leave there
is a second input (`writes`, one tree for each call). The world of a run is the file tree, the containers alive,
the terminations Docker refused, the networks and the removals asked for.

Where code and documentation disagree, the model follows the code: the package comment in
`internal/rulesvalidator/report_types.go` lets only PASS through, `Decide` also INFO; a run that is cancelled
during sync or rollback is FAILED. Three guarantees hold under conditions that are proved to be exact: a secret
is gone from every text and in any company exactly when it cannot overlap the mark, editor and reader agree on a
key exactly when it has at most one line or its first and last lines carry the same value, and two different
binaries may share a version directory exactly when the files they have in common are empty.

## Model

| member | source | states |
|---|---|---|
| Orchestrator.Run | internal/orchestrator/orchestrator.go:260-943 | For every combination of answers of the dependencies: report, status, calls and events are those of `RunSpec`; when the container step fails although Docker was asked, the last three attempts failed or the context is done; every acquired resource is cleaned up once, the last acquired first; no container outlives the run unless Docker refused a termination, and the removal of its network is asked for once; nothing outside the temporary directory and the two places in the run directory changes; if no cleaner failed the clone is gone, and, unless it was to be removed, its tree, as the run's own calls left it, is in the workspace of the run directory (and nothing else, when that was there and held no workspace at the start); the cleanup and its errors never touch the status |
| Orchestrator.ValidationRun.constructor | internal/orchestrator/orchestrator.go:260-297 | A run starts with no steps, status PASSED, an empty registry and a cleanup state that points to the status |
| Orchestrator.ValidationRun.Execute | internal/orchestrator/orchestrator.go:392-943 | All phases in order, each entered only when the one before has passed; ends finished on every path |
| Orchestrator.ValidationRun.CloneStep | internal/orchestrator/orchestrator.go:420-511 | The removal of the temporary directory is registered before cloning, so also when cloning fails; the disposal of the clone, with a copy of the cleanup state, only after it |
| Orchestrator.ValidationRun.Prepare | internal/orchestrator/orchestrator.go:392-571 | Input check, preflight, clone, engine guard and overlay; a failed input check ends in USAGE_ERROR before anything is asked |
| Orchestrator.ValidationRun.AcquireNetwork | internal/orchestrator/orchestrator.go:578-595 | Whether or not the factory succeeds, networks and cleaners stay in balance: one new network, one new cleaner, or neither; without one, three attempts failed or the context is done |
| Orchestrator.ValidationRun.CreateNetwork | internal/orchestrator/orchestrator.go:573-595 | Without a network the container step is reported as failed without having begun, and no container is asked for |
| Orchestrator.ValidationRun.AcquireContainer | internal/orchestrator/orchestrator.go:604-613 | Whether or not the start succeeds, containers and cleaners stay in balance: one held container and its stop, or neither; without one, three attempts failed or the context is done |
| Orchestrator.ValidationRun.StartContainer | internal/orchestrator/orchestrator.go:597-643 | The stop is registered exactly when the container runs, after the removal of the network |
| Orchestrator.ValidationRun.SchemaStep | internal/orchestrator/orchestrator.go:685-758 | Fails exactly when the user or the roles it found cannot be created; without a schema name it passes |
| Orchestrator.ValidationRun.Gate | internal/orchestrator/orchestrator.go:845-874 | Sync comes within reach only when no validator is wired or the wired one allows it, as `RunSpec.GateOpenIff` and `SetUpPassesIff` spell out |
| Orchestrator.ValidationRun.ConcludeMaven | internal/orchestrator/orchestrator.go:893-905 | A goal that does not pass, aborted ones included, ends the run as FAILED with its own step status in the report |
| Orchestrator.ValidationRun.Migrate | internal/orchestrator/orchestrator.go:884-943 | Rollback is run only after sync passed and a tag was found, and the run is PASSED only if it passes too |
| Orchestrator.ValidationRun.Fail | internal/orchestrator/orchestrator.go:327-359 | The report ends with the failed step and the cleanup, status FAILED |
| Orchestrator.ValidationRun.FailUsage | internal/orchestrator/orchestrator.go:360-375 | The report is the failed input check and the cleanup, status USAGE_ERROR |
| Orchestrator.ValidationRun.CopyScriptReport | internal/orchestrator/orchestrator.go:303-318 | No copy is due without a clone or a run directory, none is made when the clone holds no report directory, after one that succeeds the report is in the run directory, and one fails only when an operation on files does; the clone is untouched in every case |
| Orchestrator.ValidationRun.AskValidator | internal/orchestrator/orchestrator.go:846-874 | The validator container is asked exactly when one is wired and its ruleset is there; the gate opens exactly without a validator, or when the container ran and the report on the host says PASS or INFO |
| Orchestrator.ValidationRun.RunCleaners | internal/orchestrator/orchestrator.go:166-170 | The cleaners of what was acquired run once each in reverse order, each on the state its predecessor left, and the failures come back |
| Orchestrator.ValidationRun.CleanUp | internal/orchestrator/orchestrator.go:166-191 | What the cleaners have achieved together, and that one of them fails exactly when one of the file operations or Docker requests of the cleanup does |
| Orchestrator.ValidationRun.RunCleanupStep | internal/orchestrator/orchestrator.go:166-191 | All cleaners run in reverse; the step passes exactly when none fails; the trace is written from the final state |
| Orchestrator.ValidationRun.ReportCleanup | internal/orchestrator/orchestrator.go:320-324 | The cleanup is the last step and the last pair of events, whatever its outcome |
| Orchestrator.ValidationRun.AppendCleanupAndBuild | internal/orchestrator/orchestrator.go:303-325 | Cleanup is the last step and the last pair of events of every report, and leaves the status alone |
| Orchestrator.ValidationRun.RunDeferred | internal/orchestrator/orchestrator.go:271-276 | The deferred pass over the registry runs no cleaner and changes nothing |
| Orchestrator.BuildCleanupTrace | internal/orchestrator/orchestrator.go:196-240 | The lines for container, network and workspace, and the errors if there are any |
| Orchestrator.TraceTellsTruth | internal/orchestrator/orchestrator.go:215-228 | After every run without a cleanup error: the trace says removed exactly when the run passed and its workspace is not kept, and that it could not be retained exactly when there is no run directory; then there is no clone; when it says retained, it names the run directory, and the clone's tree, as the run's own calls left it, is in its workspace |
| Orchestrator.TraceClaimsRemoval | internal/orchestrator/orchestrator.go:199-239 | The container and network lines say removed exactly when the resource was acquired; a fourth line is there exactly when a cleaner failed, so exactly when an operation of the cleanup did, and lists the failing cleaners in order; so after a refused stop the line still claims a removal while the container is alive, and only the errors tell |
| RunSpec.ReportShape | internal/orchestrator/orchestrator.go:303-402 | The steps are a prefix of the fixed order, or a lone failed input check; all passed but possibly the last; PASSED exactly when rollback passed, USAGE_ERROR exactly when the input check failed |
| RunSpec.EventsMatchReport | internal/orchestrator/orchestrator.go:125-129 | End events and report steps correspond one to one, in order, failed exactly when not passed |
| RunSpec.AllEventsMatchReport | internal/orchestrator/orchestrator.go:320-324 | And with the cleanup step at the end, whatever its outcome |
| RunSpec.EventsInPairs | internal/orchestrator/orchestrator.go:404-943 | Every begun step has its start and its end event next to each other at its own place, and nothing follows a failed one; only the container step without a network has an end alone |
| RunSpec.StepReportedIff | internal/orchestrator/orchestrator.go:327-943 | A step is in the report with a status exactly when all before it pass and it ends with that status |
| RunSpec.PreparationPassesIff | internal/orchestrator/orchestrator.go:392-643 | Which answers let input check, preflight, clone, engine guard, overlay and container start pass, each on top of the one before |
| RunSpec.SetUpPassesIff | internal/orchestrator/orchestrator.go:645-874 | The same from readiness to the gate, which is passed exactly without a validator, or with its ruleset there, its container run, and a report saying PASS or INFO: the unpacked one, else the one that was there, else the container's own |
| RunSpec.MigrationPassesIff | internal/orchestrator/orchestrator.go:884-943 | The same from sync to the end: two Maven containers that end with code 0, an open context and no BUILD FAILURE in their output, and a tag between them; the run is PASSED exactly then, and a goal is aborted exactly when its container ends with the context done |
| RunSpec.GateOpenIff | internal/rulesvalidator/report.go:62-69 | The gate of the run in plain terms, with the two statuses that open it |
| RunSpec.TriedIff | internal/orchestrator/orchestrator.go:404-943 | A step is begun exactly when the input check and every step before it pass |
| RunSpec.SyncIsGated | internal/orchestrator/orchestrator.go:845-893 | Every call of sync comes after the gate: with a validator wired, its ruleset is there, its container ran, and the report on the host says PASS or INFO; the validator was called before; and the run's own tag is in front of its parameters |
| RunSpec.RollbackIsGated | internal/orchestrator/orchestrator.go:907-929 | Every call of rollback is at one fixed place after a passed sync and a found tag, and carries exactly that tag |
| RunSpec.NetworkIsLazy | internal/orchestrator/orchestrator.go:573-604 | Network and container are asked for only after preflight, clone, engine guard and, if wired, overlay passed, and the container only once the network is there |
| RunSpec.StepsAsk | internal/orchestrator/orchestrator.go:404-943 | Every step that is begun makes its own calls, right after those of the steps before it |
| RunSpec.AcquiredInOrder | internal/orchestrator/orchestrator.go:433-613 | What a run acquires, in closed form: temporary directory, clone, network, container, in this order and each at most once, with the condition for each |
| RunSpec.SameBefore | internal/orchestrator/orchestrator.go:392-571 | Nothing before container start depends on whether a network and a container can be had |
| RunCleanup.CleanedUp | internal/orchestrator/orchestrator.go:166-240 | Running the cleaners of what was acquired, whichever fail: no container or network outlives the run, nothing else is touched, the copied report stays, and without errors the clone is where the status demands |
| RunCleanup.CleanupLeavesNothing | internal/orchestrator/orchestrator.go:578-613 | If Docker refused no termination the live containers are those from before the run; exactly the created network was asked to be removed, once |
| RunCleanup.CleanupSettlesWorkspace | internal/orchestrator/orchestrator.go:460-486 | Disposed of without error, the clone is gone; unless the run passed and is not to be kept, or there is no run directory, all its directories and regular files are at the workspace place, and nothing but its tree when that was free; special files are there or all left out; the later removal of the temporary directory does not reach it |
| RunCleanup.SettledFromStart | internal/orchestrator/orchestrator.go:303-318 | The conditions on the workspace's place need only hold when the run starts, and the tree found there is the clone as the last step left it: the script report is copied between, and touches neither |
| RunCleanup.CleanupStaysInside | internal/orchestrator/orchestrator.go:433-486 | However the cleaners end, files outside the temporary directory and the run directory's two places are as before |
| RunCleanup.CleanupKeepsReport | internal/orchestrator/orchestrator.go:303-318 | The script report copied before the cleanup is intact after it |
| RunCleanup.HeldAfterwards | internal/orchestrator/orchestrator.go:604-613 | The provider still holds a container after the cleanup exactly when one was started and its stop failed; that container is the run's own and alive |
| RunCleanup.CourseOf | internal/orchestrator/cleanup.go:46-64 | Any log of cleaners in reverse order of acquisition splits into container, network, workspace and directory steps with the states between them |
| Registry.CleanupRegistry.Register | internal/orchestrator/cleanup.go:30-34 | Appends the entry |
| Registry.CleanupRegistry.RunAll | internal/orchestrator/cleanup.go:40-65 | The first call runs every entry once, the last registered first, whichever fail, each on the state its predecessor left, and returns exactly the errors of the failing ones, none exactly when no operation failed; later calls run nothing |
| Registry.RunEach | internal/orchestrator/cleanup.go:54-64 | The loop over the snapshot: one log entry per cleaner, in order, and the failures collected |
| Registry.World.Execute | internal/orchestrator/orchestrator.go:434-612 | One cleaner does what its closure says in the state in which it runs, and fails exactly when an operation on files or a request to Docker does |
| Registry.World.DisposeWorkspace | internal/orchestrator/orchestrator.go:473-486 | Reads the terminal status: removal after a pass unless the workspace is kept, removal without a run directory, a move otherwise |
| Registry.NoFailures | internal/orchestrator/orchestrator.go:170-179 | No error is returned exactly when every cleaner succeeded |
| Registry.FailuresInOrder | internal/orchestrator/cleanup.go:54-64 | The errors are those of the failing cleaners, one each, in the order in which they ran |
| RegistryProtocol.StepKeepsInv | internal/orchestrator/cleanup.go:30-65 | Every step of every call, in any interleaving, keeps the invariant |
| RegistryProtocol.RunKeepsInv | internal/orchestrator/cleanup.go:30-65 | So the invariant holds in every state of every run |
| RegistryProtocol.WinnerStays | internal/orchestrator/cleanup.go:41-46 | Once some call has set `ran`, the winner and the entries it saw never change |
| RegistryProtocol.WinnerRunsAllOnce | internal/orchestrator/cleanup.go:40-65 | The call that finds `ran` unset is the only one that runs anything; when it is back, every entry registered before its lock section has run exactly once in reverse order, later ones have not, and it returns exactly the failures; all other calls return nothing |
| RegistryProtocol.EveryStateIsSafe | internal/orchestrator/cleanup.go:10-13 | At most one call executes at any time, only a prefix of its snapshot has run, and the once guard of the next entry is always free |
| RegistryProtocol.WinnerCanMove | internal/orchestrator/cleanup.go:54-64 | The winner is never stuck, and each of its steps runs one more entry |
| MavenRunner.GoalPassesIff | internal/maven/container_runner.go:332-366 | A goal passes exactly with exit code 0, an open context and no BUILD FAILURE anywhere in its output; it is aborted exactly when the context is done |
| MavenRunner.EnsureTagStr | internal/maven/runner.go:157-167 | The loop returns the parameters as they are when one of them begins with `--TAG=`, and otherwise with the unique tag in front |
| MavenRunner.TagOfGoals | internal/orchestrator/orchestrator.go:948-955 | Sync gets the unique tag put in front; rollback keeps its own |
| MavenRunner.EnsureTagSettles | internal/maven/runner.go:157-167 | Afterwards a tag is always given, and doing it again with any tag changes nothing |
| Workspace.MoveWorkspace | internal/orchestrator/workspace.go:18-29 | Success leaves nothing at the source and all directories and regular files at the destination; for an absent destination with its parent there, exactly the tree a rename gives, or that tree without special files; it fails exactly when an operation does, a rename across devices aside; after a failure the source is intact or its copy complete; nothing else changes |
| Workspace.CopyThenRemoveIsMove | internal/orchestrator/workspace.go:24-28 | Copying and then removing the source yields the tree of the rename without the source's special files, so the same tree when there are none |
| FileSys.MoveUnique | internal/orchestrator/workspace.go:18-22 | That tree is unique |
| Workspace.CopyDir | internal/orchestrator/workspace.go:44-67 | On success every directory and regular file is at its place in the copy, special files are skipped, nothing outside the destination changes on either path, and it fails exactly when an operation does |
| Workspace.CopyTree | internal/orchestrator/workspace.go:44-90 | The same for any order of the walk |
| Overlay.Apply | internal/overlay/overlay.go:37-58 | It succeeds exactly when no operation fails and the source has a file whose name ends in .sql in any case; then exactly those files are below the destination, as many paths are returned as were counted first; without any, the destination is untouched; outside it nothing changes |
| Overlay.CountSQLFiles | internal/overlay/overlay.go:61-79 | Counts the regular files with a .sql extension in any case |
| Overlay.SqlNameIff | internal/overlay/overlay.go:73 | A name counts exactly when its last four characters are a dot, one of s, S and the long s, one of q and Q, and one of l and L |
| Overlay.ClearDir | internal/overlay/overlay.go:82-97 | On success the directory exists and is empty; it fails exactly when an operation does |
| Overlay.CopySQLTree | internal/overlay/overlay.go:101-137 | On success the files below the destination are the .sql files of the source at the same relative paths with the same content, and the returned paths name them |
| Overlay.CountIsSetSize | internal/overlay/overlay.go:61-79 | The count is the number of such files, whatever the order of the walk |
| Overlay.PathsAreDistinct | internal/overlay/overlay.go:101-137 | The returned paths are pairwise distinct |
| Overlay.PathsNameAll | internal/overlay/overlay.go:101-137 | They are the places of the .sql files of the source, and no others |
| Overlay.CheckInput | internal/orchestrator/orchestrator.go:397-402 | The input check passes exactly when the walk succeeds and there is a regular file whose name ends in .sql in any case; a missing directory is no error but has no file |
| Overlay.CheckThenApply | internal/orchestrator/orchestrator.go:397-571 | From the check to the overlay, whatever is written in the clone between: the lack of pending SQL is reported exactly when the check fails, never by the overlay |
| Overlay.OverlayIgnoresOldDest | internal/overlay/overlay.go:82-97 | What is below the destination afterwards does not depend on what was there before |
| Untar.UntarInto | internal/maven/container_runner.go:396-458 | For any entries of which none lies below a link, sent or there before: nothing outside the destination and nothing through a `.git` component changes, what no entry names is kept, and on success the last accepted entry for each place says what is there: a file with that content, a directory, or, unless a link could not be made, a link; it fails exactly when the stream breaks off or an operation fails whose error the code looks at |
| Untar.TargetHasNoGit | internal/maven/container_runner.go:408-427 | An accepted entry lands at or below the destination, and on no path through `.git`, whatever dots its name holds; below the destination its path has no empty and no dot component |
| Untar.DotsResolve | internal/maven/container_runner.go:424 | In a name, a single dot stands for nothing and two dots take back the part before them |
| Untar.EscapeIsRejected | internal/maven/container_runner.go:425-427 | A name that begins by leaving the destination is accepted exactly when it comes straight back into it |
| Untar.ExtractFile | internal/maven/container_runner.go:434-450 | On success the file has the content of the entry; where a file or a link stood, only a refusal of the environment makes it fail |
| Untar.ExtractLink | internal/maven/container_runner.go:451-453 | Where the parent is there and nothing is below the target, only a refusal of the environment leaves it without the link; an error never shows |
| Untar.NextContainerSees | internal/maven/container_runner.go:292-303 | After a successful copy-out every non-git directory of sync's work tree, and every file and link that its stream carries as such, is seen unchanged by the container that the clone is copied into next, whether or not the names of directories end in a slash |
| Untar.SlashedStreamIsTar | internal/maven/container_runner.go:368-391 | The stream of any work tree, walked in any order, with a slash after every directory name, is such a stream, and every node is in it as what it is |
| Extraction.CrashKeepsSafe | internal/embedrepo/embed.go:55-88 | A run may stop after any write: a sentinel that matches still implies a complete cache |
| Extraction.FinalIsComplete | internal/embedrepo/embed.go:55-88 | A run that is not stopped leaves a matching sentinel and every file with its bytes |
| Extraction.FinalIs | internal/embedrepo/embed.go:64-85 | In plain terms: with the checksum in `.complete`, white space around it aside, the disk stays as it is; otherwise every file and then `.complete` are written over what was there, and nothing else is touched |
| Extraction.MatchingRunWritesNothing | internal/embedrepo/embed.go:65-71 | Once the sentinel matches, no later run of the same binary changes the disk, however many there are and wherever they stop |
| Extraction.AllRunsSafe | internal/embedrepo/embed.go:55-88 | So over any number of runs in sequence, each stopped anywhere |
| Extraction.SharingIsSafeIff | internal/embedrepo/embed.go:38-46 | Two different binaries may share a version directory exactly when every file that both bring along is empty in both; equal bytes are not enough, as the second truncates first |
| Extraction.SharedDirectoryIsUnsafe | internal/embedrepo/embed.go:38-46 | A concrete pair of binaries that may not |
| Extraction.EnsureExtracted | internal/embedrepo/embed.go:55-88 | Every disk there is while it works is a state in which the run may stop; from a safe disk all of them are safe, an error means exactly that an operation failed, and without one the sentinel matches and the cache is complete |
| Extraction.ExtractFS | internal/embedrepo/embed.go:125-164 | The files are written in order and the sentinel is left alone |
| Extraction.EnsureJarExtracted | internal/embedvalidator/embed.go:53-94 | The one-file instance, which truncates before it writes, passes through states of the same protocol only, with the same guarantees |
| Containers.Host.StartOnce | internal/container/postgres.go:73-139 | On failure nothing new is alive but what Docker refused to terminate; on success exactly the held container besides; it fails exactly when a request to Docker does |
| Containers.RetryDo | internal/container/retry.go:22-58 | At most the given number of attempts (at least one), all failed but a successful last; a done context, and nothing else, stops it early, and one that is done from the start before any attempt; every failed attempt is a failed request to Docker; the balance of containers and networks carries over all attempts |
| Containers.Start | internal/container/postgres.go:147-179 | At most three attempts, and without success exactly three unless the context is done; without refused terminations a failed start leaves no container and a successful one exactly the held one |
| Containers.Stop | internal/container/postgres.go:183-192 | Terminates what is held; with nothing held it does nothing; a refused termination keeps the handle |
| Containers.StartThenStop | internal/container/postgres.go:147-192 | Start and stop together leave nothing alive on either path when Docker refuses nothing; a second stop after one that succeeded succeeds and changes nothing, and a container whose two stops failed is still alive and held |
| Containers.NewNetwork | internal/container/network.go:58-72 | On success one new network and one cleanup for it that has not run; otherwise no network, after three attempts or with a done context |
| Containers.NetworkCleanup.Run | internal/container/network.go:36-46 | Asks for the removal on the first call only |
| Containers.CleanupManyTimes | internal/container/network.go:36-46 | However often it is called, the removal is asked for once |
| Readiness.WaitReady | internal/container/readiness.go:44-96 | The returned attempts are the pings made, all before the deadline, all failed but a successful last; sleeps follow the growing intervals; it is cancelled exactly where it first finds the context done |
| Readiness.IntervalsGrow | internal/container/readiness.go:89-94 | For a policy that backs off, intervals never shrink and never exceed the maximum |
| Readiness.TurnsBounded | internal/container/readiness.go:62-72 | If the clock advances by at least each sleep, a ping before the deadline is at most number Deadline / InitialInterval + 1 |
| Readiness.ProbeBounded | internal/container/readiness.go:44-96 | The whole probe makes no more pings than that and returns; under the default policy at most 34 |
| Readiness.DefaultPingsBounded | internal/container/readiness.go:29-34 | Under the default policy a ping before the deadline is at most the 34th |
| Readiness.DefaultBoundIsTight | internal/container/readiness.go:29-34 | A clock that runs only during sleeps lets the 34th ping through |
| RulesGate.TranslationIff | internal/rulesvalidator/request.go:194-201 | For a file below a clean clone root, the translated path is where copy-in puts the file exactly when its first component does not begin with two dots (or the clone already stands where it would land) |
| RulesGate.DottedFileNotTranslated | internal/rulesvalidator/request.go:194-201 | A concrete file that is not translated |
| RulesGate.OutsideIsKept | internal/rulesvalidator/request.go:194-201 | A path outside the clone stays as it is, and the clone itself becomes the project root with a dot |
| RulesGate.TranslationInjective | internal/rulesvalidator/request.go:194-201 | Different files are translated to different paths |
| RulesGate.ProjectRootIsLanding | internal/rulesvalidator/request.go:81-106 | The project root on the command line is where the clone lands under the documented rule: its base name below /work |
| RulesGate.ReportCopiedFromTranslation | internal/rulesvalidator/request.go:125-190 | The path the report is copied from is the translation of the host path it is read at, and ends in src/main/resources/Validator/outputReport/report/json/validation_report.json |
| RulesGate.ValidatePreSync | internal/rulesvalidator/validator.go:110-149 | Allows exactly when the ruleset is there, the container ran and the file at the host path parses to the status PASS or INFO, and says otherwise what was missing; the container's output is logged and returned on every path on which it ran |
| RulesGate.GateReadsThisRunIff | internal/rulesvalidator/validator.go:262-296 | The gate is certain to read this run's report exactly when the archive was unpacked or the clone held no file at that place |
| Scrub.ScrubSecrets | internal/domain/scrub.go:9-17 | The loop replaces the non-empty secrets one after the other |
| Scrub.ReplaceAll | internal/domain/scrub.go:13 | Leftmost, non-overlapping replacement |
| Scrub.ReplacedKeepsGaps | internal/domain/scrub.go:13 | The text between the replaced occurrences is preserved in order |
| Scrub.GapsAreClean | internal/domain/scrub.go:13 | None of it holds the secret |
| Scrub.LeftmostFirst | internal/domain/scrub.go:13 | A text without the secret stays as it is; in any other the leftmost occurrence becomes the mark, and the text after it is dealt with in the same way |
| Scrub.ScrubbedInOrder | internal/domain/scrub.go:9-17 | The secrets are replaced one after the other, the first one first, and empty ones are passed over |
| Scrub.SecretIsGone | internal/domain/scrub.go:9-17 | A non-empty secret that cannot overlap the mark occurs nowhere in the result, whatever else is scrubbed, in whatever order |
| Scrub.NoSecretSurvives | internal/domain/scrub.go:9-17 | So if no secret can overlap the mark, none occurs in the result |
| Scrub.GoneInAnyCompanyIff | internal/domain/scrub.go:9-17 | The condition is exact: a secret is gone from every text and with every list of other secrets exactly when it cannot be laid over the mark so that the two agree where they overlap |
| Scrub.BracketFreeClashes | internal/domain/scrub.go:13 | A secret without brackets can overlap the mark exactly when it is part of the word REDACTED |
| Scrub.ScrubGuaranteeIff | internal/domain/scrub.go:9-17 | For a list of bracket-free secrets the guarantee holds for all texts exactly when none of them is part of that word |
| Scrub.BracketSecretSurvives | internal/domain/scrub.go:9-17 | A concrete text and a secret with a bracket, no part of the mark, that survives |
| Scrub.ScrubIdempotent | internal/domain/scrub.go:9-17 | If no secret can overlap the mark, scrubbing twice is scrubbing once |
| Scrub.ScrubbedKeepsGaps | internal/domain/scrub.go:9-17 | For any list of such secrets the text is a row of gaps with secrets between them, and the result is the same gaps in the same order with the mark between them, none holding a secret |
| PomPatch.LocatePluginBlock | internal/maven/pom_patch.go:126-148 | The scan with its moving offset terminates and finds the specified block |
| PomPatch.LocateIsFirstMatch | internal/maven/pom_patch.go:126-148 | That block is the first of the visited plugin blocks that names the plugin, and none is found only if none does |
| PomPatch.BlocksFollow | internal/maven/pom_patch.go:126-148 | The visited blocks follow each other: each from the first opening tag after the one before to the first closing tag after it, until there is none |
| PomPatch.DriverBlock | internal/maven/pom_patch.go:126-148 | The program's block runs from `<plugin>` to the first `</plugin>` after it and holds the group and the artifact id of the release manager plugin |
| PomPatch.InsertionOnly | internal/maven/pom_patch.go:80-121 | The output is the input with at most one contiguous insertion at a stated position; the missing closing plugin tag is never reported |
| PomPatch.OutcomeIff | internal/maven/pom_patch.go:80-121 | The input comes back unchanged exactly when no plugin matches or the driver is there; an error exactly for an opening without a closing dependencies tag |
| PomPatch.EditPoint | internal/maven/pom_patch.go:95-120 | The insertion lies strictly inside the matching block, in front of a tag |
| PomPatch.LocateStable | internal/maven/pom_patch.go:126-148 | Inserting there neither hides nor moves the block: the same start is found again |
| PomPatch.BlockAfterInject | internal/maven/pom_patch.go:80-121 | After an injection the block found has the same start and holds the driver |
| PomPatch.InjectIdempotent | internal/maven/pom_patch.go:80-121 | Injecting twice is injecting once, for any markers and texts of this shape |
| PomPatch.InjectDriverIdempotent | internal/maven/pom_patch.go:58-121 | And so for the program's own markers and dependency text |
| PomPatch.InjectDriverDependency | internal/maven/pom_patch.go:58-76 | The file is rewritten to the injected text exactly when that differs and no error occurs; a no-op leaves it untouched; the reported text is one declaration of the driver |
| PomPatch.InjectDriverWrites | internal/maven/pom_patch.go:80-121 | For every file: with both dependencies tags in the block and no driver, one declaration of the driver goes directly before the first closing one; with no opening one, a dependencies block around the declaration goes directly before the end of the plugin; with an opening one alone, an error; otherwise nothing changes |
| Properties.Properties.Parse | internal/liquibase/properties.go:25-52 | The line records of the scanned lines |
| Properties.Properties.Get | internal/liquibase/properties.go:55-65 | The value of the first line for the key |
| Properties.Properties.Set | internal/liquibase/properties.go:69-82 | The first line with the key is rewritten in place; without one, a line is appended |
| Properties.Properties.Render | internal/liquibase/properties.go:87-94 | The raw lines, each ended by a newline |
| Properties.RenderOfParse | internal/liquibase/properties.go:25-94 | Rendering what was parsed is the text with its line ends normalised |
| Properties.RoundTripExactly | internal/liquibase/properties.go:25-94 | For any lines at all: parsing what is rendered gives them back exactly when each is what parsing its own one-line text gives and none ends in a carriage return |
| Properties.NewLineParsesIff | internal/liquibase/properties.go:69-82 | A line that is added parses to itself exactly when its key is clean: trimmed, on one line, without an equals sign and not like a comment |
| Properties.RoundTripIff | internal/liquibase/properties.go:25-94 | After any edits of any text with clean keys and one-line values, parsing what is rendered gives the same lines exactly when none ends in a carriage return |
| Properties.RoundTripOfPresentKeysIff | internal/liquibase/properties.go:44-82 | Keys that the text already has are always clean, so for edits of those the same holds with no condition on keys |
| Properties.SetThenGetIff | internal/liquibase/properties.go:55-82 | What was set is read back, trimmed, exactly when the key holds no equals sign |
| Properties.SetKeepsOthers | internal/liquibase/properties.go:69-82 | Get of every other key is unchanged |
| Properties.SetKeepsLines | internal/liquibase/properties.go:69-82 | The new line stands where the first entry for the key was, or else at the end, and every other line stays where it was |
| Properties.SetKeepsWellFormed | internal/liquibase/properties.go:69-82 | Every line stays what parsing its own text gives exactly when the key is clean and the value on one line |
| SimpleReader.ReadRawProps | internal/engine/detect.go:119-142 | The map of the scanned lines, later entries winning |
| SimpleReader.EntryAgrees | internal/engine/detect.go:126-139 | Reader and editor take the same key and value from any line |
| SimpleReader.LineSays | internal/liquibase/properties.go:28-50 | A line with white space of any kind around key and value says that key and that value to both readers |
| SimpleReader.LineIsSilent | internal/liquibase/properties.go:28-50 | A line without an equals sign, or with `#` or `!` first after the white space, says nothing to either |
| SimpleReader.EditorFirstReaderLast | internal/engine/detect.go:119-142 | For any text and key, Get is the value of the first line with the key and the reader has that of the last |
| SimpleReader.EditorAgreesWithReader | internal/engine/detect.go:119-142 | They agree on a key exactly when it has at most one line, or its first and last lines carry the same value |
| SimpleReader.SecondLineDivides | internal/engine/detect.go:119-142 | Whatever other lines there are: with `k=v` the first and `k=w` the last line for a key, Get is v and the reader has w, both trimmed |
| SimpleReader.ReaderAfterEdits | internal/liquibase/properties.go:69-94 | After writing any clean edits the reader sees the new values, except for keys with a second line, and the old values of all others |
| Engine.Patch | internal/liquibase/patch.go:26-68 | The file becomes the patched text, which names the database: for a key with at most one line, user, password, driver and a url with alias and alias port, or else host and port, and the database; other keys are as before |
| Engine.PatchedLogsIn | internal/liquibase/patch.go:40-54 | So for every file and all coordinates on one line, the port being the decimal number |
| Engine.ChangesReported | internal/liquibase/patch.go:49-61 | The four reported changes, in order, with what each key had before and what it has now |
| Engine.ReaderAfterPatch | internal/liquibase/patch.go:26-68 | For every key: the new value when it is one of the four and had at most one line, otherwise what the file said before |
| Engine.DetectAfterPatch | internal/engine/detect.go:34-72 | What detection says of a patched file, for every file |
| Engine.DetectIff | internal/engine/detect.go:34-100 | Detection in plain terms: Postgres exactly when url or driver says so in any case and neither speaks for another engine, with the exact conditions of the three rejections |
| Engine.PatchedIsPostgresIff | internal/engine/detect.go:34-100 | A patched file is accepted as Postgres exactly when no leftover second url or driver line names another engine; always when both occur at most once |
| Trim.LinesOfUnlines | internal/liquibase/properties.go:27-50 | Scanning written lines gives them back, each without one carriage return at its end |
| Trim.UnlinesOfLines | internal/liquibase/properties.go:27-50 | Writing scanned lines gives the text with its line ends normalised |

## Left out

- Docker, testcontainers, git, SQL execution, the Maven build, tar, zip and JSON decoding and SHA-256: their results are arbitrary answers, decoded entries or given checksums.
- Preflight, run-dir naming, exit codes, URL and flag resolution, logging, console and report rendering: simple members, or text for people.
- The regular expressions that extract schema and role names: whether they find something is an answer in `RunSpec.Env`.
- File permissions and modes, and Windows path separators.
- Symbolic links are special nodes of the tree that are never followed; no parent of a written path is one.
- The line-length limit of the line scanner: lines of any length are scanned.
- Real time: report durations are not modelled; the readiness probe takes the clock's readings as its input.
- The order in which a directory walk lists entries: the theorems hold for every order.
- Untar.UntarInto: an entry below a symbolic link, sent before it or already in the destination, is out; the code follows the link, which may lead out of the destination, where the model fails.
- Execution logs: production streams the output of Maven and of the validator into `<runDir>/execution.log` during the run (`cmd/dbflow-validator/main.go`, lines 193, 294 and 310); that file is not among the modelled files.
- A sentinel file that is there can be read; the code extracts again when it cannot.
- The network a container joins and the coordinates it is reached at: `Containers.Start` returns whether it runs, and `Engine.Patch` takes any coordinates.
- Engine.Patch: a failed write may leave any text, as the operating system promises nothing more.
- PomPatch.InjectDriverDependency: a failed write may leave any text, for the same reason.
- Registry.CleanupRegistry.RunAll: one goroutine; the mutex and the once guard of an entry are modelled in `RegistryProtocol`, where entries are numbers. Of a network cleaner registered more than once, only the first run is specified.
- Orchestrator.Run: a panic or a signal before the eager cleanup, for which the deferred pass exists, is not modelled; nor are the messages and traces of the steps other than the cleanup's. The containers of the Maven goals and of the validator are created and removed by their runners and are not in the modelled world.
- Orchestrator.ValidationRun.SchemaStep: the grants and the bookkeeping schema, whose failure is only logged, have no part in the outcome.
- RulesGate.ValidatePreSync: the text of the violations and the rest of the report are not modelled; only its status decides.
- Untar.NextContainerSees: a further hard link to a file comes as a link entry, which the extraction skips, so such a name is not restored; the lemma speaks of files sent with their content.
- Orchestrator.ValidationRun.Gate: whether a report was in the clone before the run is an answer of the environment, not read off the run's file tree.
- Untar.ExtractFile: the mode bits of the entry are not modelled.
