# A verified model of the repository's scheduler, deck storage and guards

The repository is a card-game engine with the tooling around it. This project models the parts of
that tooling whose behaviour is easy to get wrong, and proves what they are for:

- the `make validate` scheduler: a list scheduler over a dependency graph with counted resources,
  fail-fast and eager abort, its memory-footprint model and its step selection
  (`Steps`, `Footprint`, `Scheduler`, `SchedulerSafety`, `Outcomes`, `SchedulerLiveness`, `KeepGoing`,
  `Layers`, `Makespan`, `MakespanRuns`, and the object itself in `Runner`);
- the teardown of a step's process tree by control group and process group
  (`Cgroups`, `Containment`, `Teardown`);
- the cloud deck collection: `.dck` text, tar bytes, the conditional-write protocol between devices
  over what such archives read back as, and the two migrations (`Tar`, `TarLayout`, `TarReader`, `Dck`,
  `DckMeaning`, `DeckCodec`, `ReadBack`, `StoredNames`, `DeckProtocol`, `DeckMigration`); the tar format is the ustar Interchange Format
  of IEEE Std 1003.1-2017, the conditional writes are those of sections 13.1.1, 13.1.2 and 15.5.13 of
  RFC 9110;
- the build date: the epoch-to-civil arithmetic against a naive Gregorian calendar, sections 3.2.1
  and 4.1.2.2 of ISO 8601:2004 (`CivilDate`);
- the game-log oracle: which differences between a server's and a client's log are mere masking
  (`Regex`, `Splitting`, `Oracle`, `OracleMasks`, `Patterns`);
- the front-matter repair of issue files (`FrontMatter`).

`Digits`, `Texts`, `Bounds`, `Sums`, `Sorting`, `Sequences` and `Options` hold what several of them use.

Code that changes state is modelled by methods over fields, arrays and loops, each proved equal to a
specification function; concurrency is a state machine over the steps taken under the lock, one
request to the object store, or one kernel operation; main results are lemmas over all inputs or all
runs of these.

Where a promise turned out false of the code, the model keeps the code, shows an input, and states
exactly when the promise holds:

- `--keep-going` promises to run the rest after a failure (scripts/validate.py:1029-1032), but `stop`
  is set in both modes (scripts/validate.py:791-796). Two independent steps are enough
  (`KeepGoing.KeepGoingLeavesStep`). Once a step has failed, the rest will be run however the run
  goes on exactly when every step not started by then already has a failed dependency, directly or
  not (`KeepGoing.WillRunRestExactly`). And a live configuration always runs the rest exactly when
  its steps come in layers, each needing all of the layers below and able to run at once
  (`Layers.AlwaysRunsRestExactly`).
- The front-matter repair drops a duplicate key line but not the children its comment says it drops
  (scripts/check_beads_dup_keys.py:117-119), so they fall to the key before
  (`FrontMatter.ChildChangesOwner`); every child keeps its key exactly when no dropped line is
  directly followed by one (`FrontMatter.RepairKeepsOwnersExactly`).
- A reap (cgroup.kill, then killpg) leaves no process behind in every interleaving exactly when the
  step's leader had already joined its group, or was dead, when the reap began: before that, the
  leader can move and fork between the two kills (`Teardown.ReapCleanExactly`, with a whole run in
  `Teardown.RaceFromStart`). With nothing in between a reap is always clean, and the step's own
  closing reap always is. Without step groups it is clean exactly when nothing was alive
  (`Teardown.UngroupedReapExactly`).
- A reap spares every other step in every run exactly when no two steps share a group directory
  (`Teardown.SparesExactly`).
- `migrateLocalStorage` promises that existing remote decks are preserved (web/deck_storage.js:477-480),
  but a stored deck "a_b" is gone after another device migrates "a/b", both being saved as one file
  (`DeckMigration.SlashRemovesUnderscore`); and it tests `name in collection`, which also sees the
  properties every object inherits. It keeps what was stored and binds all local decks, whatever the
  other devices have stored, exactly when no local name is inherited, every local deck is well
  formed, and every local name is plain: fewer than 96 letters, digits, blanks, dots and hyphens
  (`DeckMigration.BindsAllExactly`). The same holds of "Migrate All", where inherited names other
  than the prototype's do no harm (`DeckMigration.OverridesExactly`).
- An accepted save leaves readers all that was written exactly when its decks are well formed and
  their stored names distinct (`DeckProtocol.PutKeepsExactly`).
- A deck collection survives a save and a load exactly when its decks are well formed and their
  stored names, sanitised and cut to what a header holds, are distinct (`DeckCodec.SaveLoadExact`);
  decks named "a/b" and "a_b" are not (`DeckCodec.SharedNameLoses`).
- The tar size field holds every size below 8^12, one octal digit more than fits before its
  terminator (`Tar.SizeFieldExact`).
- The wildcard for a masked name does not match a newline, and the end of the pattern also stands
  before a closing newline (`Oracle.TolerableExactly`, `Oracle.NewlineNotTolerated`).
- Draining the scope root leaves it empty exactly when some round sees no late fork
  (`Cgroups.DrainedExactly`); it does so whatever happens meanwhile exactly when the root is empty to
  begin with or fewer forks can happen than there are rounds (`Cgroups.AlwaysDrainsExactly`).
- `run` exits on every run exactly when the configuration is live: acyclic, closed, within its
  capacities, at least one job (`SchedulerLiveness.AlwaysExitsIffLive`).

## Model

| member | source | states |
|---|---|---|
| Steps.WithDeps | scripts/validate.py:1160-1168 | the worklist ends, cyclic dependencies included, with exactly the registered tags a dependency path reaches from the selection |
| Steps.LeastClosed | scripts/validate.py:1160-1180 | that set is closed under registered dependencies and lies inside every closed set holding the selection |
| Steps.KeptUnchanged | scripts/validate.py:1154-1180 | a selection or an opt-out leaves exactly the chosen registered steps, each as it was |
| Steps.SelectionKeepsProgress | scripts/validate.py:1170-1180 | a selected sub-registry of an acyclic closed registry is acyclic and closed |
| Steps.StrippingKeepsProgress | scripts/validate.py:1182-1190 | dropping the prebuilt producers from steps and dependency lists keeps the graph acyclic and closed |
| Steps.StrippedExactly | scripts/validate.py:1182-1190 | exactly the steps outside the prebuilt ones stay, with their needs, and of their dependencies all but the prebuilt ones, in order and as often as before |
| Steps.DisablingKeepsProgress | scripts/validate.py:1154-1155 | dropping disabled steps without stripping keeps closure exactly when no kept step depends on a disabled one |
| Footprint.ScaleExactly | scripts/validate.py:150-156 | a cap is the baseline times the factor, rounded down |
| Footprint.CapsExactly | scripts/validate.py:150-170 | a step with a baseline is capped by it under the factor, the run by the whole run's baseline under the same factor |
| Footprint.PrefixDominates | scripts/validate.py:173-193 | no n running characterised steps have caps adding up to more than the n largest caps |
| Footprint.CapSumIsStepCaps | scripts/validate.py:150-156 | the caps summed are each running step's own inner cap, nothing for a step without a baseline |
| Footprint.PrefixAttained | scripts/validate.py:173-193 | some set of running steps uses exactly that much |
| Footprint.FootprintIsWorstCase | scripts/validate.py:181-193 | for any job count the footprint bounds what a run may use, and is reached exactly when some step has a baseline or the outer cap is zero |
| Footprint.FootprintBounds | scripts/validate.py:181-193 | any set of at most that many running steps stays within the footprint |
| Footprint.FootprintMonotone | scripts/validate.py:181-193 | the footprint never decreases with the job count, values below one included |
| Footprint.JobsForBudget | scripts/validate.py:196-210 | the search returns the largest count up to the processors whose footprint fits, or 1 when none fits, with its footprint |
| Sorting.SortStable | scripts/validate.py:537-541 | sorting keeps the order of elements with equal keys |
| Sorting.SortBefore | scripts/validate.py:537-541 | of two elements sorting puts that one first which must come first, or, when they tie, which came first |
| RunnerObject.LongestFirstOrder | scripts/validate.py:530-541 | dispatch order holds just the registered steps, one before another exactly when its duration hint is longer, or neither is and it was registered first |
| RunnerObject.Runner.constructor | scripts/validate.py:512-550 | a new runner has everything available, nothing done or running, and the longest-first order |
| RunnerObject.Runner.Acquire | scripts/validate.py:567-569 | takes the step's needs from what is available, and nothing else |
| RunnerObject.Runner.Release | scripts/validate.py:571-573 | gives them back, and nothing else |
| RunnerObject.Runner.HasDeadDep | scripts/validate.py:634-637 | whether some dependency failed or is already skipped |
| RunnerObject.Runner.SkippedTags | scripts/validate.py:624-638 | the loop ends with exactly the steps a chain of pending steps leads to a failed one |
| RunnerObject.Runner.Finished | scripts/validate.py:592-596 | the exit test, with its fail-fast clause |
| RunnerObject.Runner.Turn | scripts/validate.py:599-613 | one step's turn: a full house ends the pass, a ready step with free resources is taken, any other is passed over |
| RunnerObject.Runner.SchedulePass | scripts/validate.py:597-614 | the loop reaches the state one scheduling pass specifies and returns what it launched, in dispatch order |
| RunnerObject.Runner.RegisterGroup | scripts/validate.py:712-713 | records the step's process group under its tag |
| RunnerObject.Runner.CompleteStep | scripts/validate.py:780-796 | success is recorded exactly for a step that ended ok and was not torn down; a failure of its own sets failed and stop and, without --keep-going, aborts and reaps exactly the registered others |
| Scheduler.BlockedUnfolds | scripts/validate.py:624-638 | a step is blocked exactly when it is pending and some dependency failed or is blocked |
| Scheduler.ReadyIsStartable | scripts/validate.py:600-606 | a step a pass finds ready is pending with every dependency finished ok |
| Scheduler.PassFromOutcome | scripts/validate.py:597-613 | a pass launches only startable steps, at most `jobs`, passes over one only for lack of a slot or resource, and in dispatch order |
| SchedulerSafety.RunInv | scripts/validate.py:564-618 | in every reachable state what is available plus what is held is the capacity, none is negative, at most `jobs` steps run, and started steps have finished dependencies |
| SchedulerSafety.RunGrows | scripts/validate.py:546-549 | started steps, outcomes and failure never go away |
| SchedulerSafety.LaunchDiscipline | scripts/validate.py:597-613 | a step is launched only when all its dependencies finished ok, and never after a failure, in both modes |
| SchedulerSafety.NeverLaunchedAgain | scripts/validate.py:599-602 | no step is launched twice |
| SchedulerSafety.StartedAncestorsOk | scripts/validate.py:557-562 | whatever a started step depends on, directly or not, finished ok |
| SchedulerSafety.SkippedExactly | scripts/validate.py:624-638 | in every reachable state a step is skipped exactly when it is neither done nor running and has a failed ancestor |
| SchedulerSafety.VerdictHonest | scripts/validate.py:592-622 | when the run exits it reports success exactly when every step is done and passed |
| SchedulerSafety.CountsAddUp | scripts/validate.py:872-874 | passed, failed and aborted add up to the done steps; done, skipped and never started partition the registry |
| Outcomes.OutcomeRecorded | scripts/validate.py:784-785 | in any run, what a completion records stays: success exactly when the step ended ok and had not been torn down, whatever else had failed; no step completes twice |
| Outcomes.DoneExactly | scripts/validate.py:784-785 | a step is done exactly when some event so far completed it |
| Outcomes.AbortedExactly | scripts/validate.py:786-796 | a step is torn down exactly when, without --keep-going, another one failed by itself while this one's process group was registered |
| Outcomes.RegisteredExactly | scripts/validate.py:712-713 | a process group is known exactly from its registration to the step's completion |
| Outcomes.FailedExactly | scripts/validate.py:786-792 | the run has failed exactly when some step failed by itself |
| Outcomes.CountedExactly | scripts/validate.py:872-874 | counted as passed, and as failed, are exactly the steps that ended so by themselves |
| SchedulerSafety.KeepGoingAbortsNothing | scripts/validate.py:793-796 | with --keep-going no step is ever aborted |
| SchedulerSafety.RunWithinFootprint | scripts/validate.py:181-193 | in every reachable state the caps of the running steps stay within the footprint for that job count |
| SchedulerSafety.RunCapsWithinLargest | scripts/validate.py:173-193 | in every reachable state the inner caps of the running steps add up to at most the N largest ones, outer cap aside |
| KeepGoing.NothingStartsAfterFailure | scripts/validate.py:791-796 | after a failure no further step starts, in either mode |
| KeepGoing.RestRanExactly | scripts/validate.py:1029-1032 | a finished run has run the rest exactly when every step not started at the failure has an ancestor that failed by the end |
| KeepGoing.WillRunRestExactly | scripts/validate.py:791-796 | at a failure: every way the run can end has run the rest exactly when every step not started has an ancestor that failed already |
| KeepGoing.KeepGoingLeavesStep | scripts/validate.py:791-796 | with --keep-going, a failure leaves an independent ready step unrun |
| Layers.AlwaysRunsRestExactly | scripts/validate.py:1029-1032 | a live configuration runs the rest after every failure exactly when its steps come in layers, a step needing just the steps of lower layers and each layer fitting the jobs and resources at once |
| SchedulerLiveness.PassLaunches | scripts/validate.py:592-613 | when nothing runs, nothing has stopped and the exit test fails, a pass launches a step |
| SchedulerLiveness.MoveDecreases | scripts/validate.py:575-618 | every step of a run but an idle poll decreases a measure |
| SchedulerLiveness.MovesBounded | scripts/validate.py:575-618 | a run makes at most three such moves per step: launch, register, complete |
| SchedulerLiveness.CanMove | scripts/validate.py:575-618 | until the exit test holds, something other than polling can happen |
| SchedulerLiveness.DriveToRest | scripts/validate.py:575-618 | every run without failures extends to one where nothing more can move |
| SchedulerLiveness.CleanExitIsLive | scripts/validate.py:592-596 | a failure-free run that exits shows the configuration acyclic, closed and within capacity |
| SchedulerLiveness.AlwaysExitsIffLive | scripts/validate.py:575-618 | every run that can only poll has exited, exactly for live configurations |
| Makespan.TickWork | scripts/validate.py:597-618 | one unit of time does one unit of work for every running step |
| Makespan.WallWithinSerial | scripts/validate.py:530-541 | with any resources the wall time is at most the serial time |
| Makespan.FreeSlotShortens | scripts/validate.py:597-613 | a tick with a free slot shortens every remaining dependency chain |
| Makespan.DepthIsChain | scripts/validate.py:530-541 | the depth of a step is the time of some dependency chain |
| Makespan.ListSchedulingBound | scripts/validate.py:592-618 | wall time times jobs is at most the serial time plus (jobs - 1) times the longest dependency chain |
| MakespanRuns.TimedRunExists | scripts/validate.py:575-622 | a live configuration has a failure-free timed run for any durations |
| Cgroups.SanitizeClash | scripts/validate_cgroup.py:63-67 | two tags share a group directory exactly when they have one length and differ only where both have an underscore or a character not allowed |
| Cgroups.SanitizeInjective | scripts/validate_cgroup.py:63-67 | tags spelled with the allowed characters never share one |
| Cgroups.SanitizeFormat | scripts/validate_cgroup.py:63-67 | a directory's name is the step mark and the tag, every character that is not allowed an underscore |
| Cgroups.PreparedExactly | scripts/validate_cgroup.py:156-194 | preparing makes exactly this step, and those sharing its directory, killable |
| Cgroups.KilledExactly | scripts/validate_cgroup.py:221-231 | a kill leaves alive exactly the processes that were, but those in the group of a killable step |
| Cgroups.CleanedExactly | scripts/validate_cgroup.py:233-243 | cleaning up forgets the tag and takes its directory away exactly when no live process is in it |
| Cgroups.NothingRemains | scripts/validate_cgroup.py:245-273 | in any sequence of calls, once every prepared step was cleaned up idle, nothing remains to be killed |
| Cgroups.StepCgroups.constructor | scripts/validate_cgroup.py:96-154 | inside a scope that is found and gets its supervisor group the root is drained and groups are used; otherwise nothing changes |
| Cgroups.StepCgroups.DrainRoot | scripts/validate_cgroup.py:123-139 | up to five rounds of reading and moving, whatever forks and exits meanwhile, reach the specified table |
| Cgroups.DrainedExactly | scripts/validate_cgroup.py:120-139 | the root ends empty exactly when it was, or in one round no process of it left a child behind |
| Cgroups.AlwaysDrainsExactly | scripts/validate_cgroup.py:120-139 | every interleaving with at most so many forks empties the root exactly when it was empty or the forks are fewer than the rounds |
| Cgroups.DrainedOnlyMoves | scripts/validate_cgroup.py:128-139 | draining moves processes from the root to the supervisor group and changes nothing else |
| Cgroups.StepCgroups.PrepareCommand | scripts/validate_cgroup.py:156-194 | makes the step's directory and wraps the command exactly when enabled and the directory can be made |
| Cgroups.StepCgroups.Kill | scripts/validate_cgroup.py:221-231 | kills exactly the processes in the step's group when it was prepared and exists |
| Cgroups.StepCgroups.Cleanup | scripts/validate_cgroup.py:233-243 | removes the directory unless a process lives in it, and forgets the tag either way |
| Cgroups.StepCgroups.KillAllRemaining | scripts/validate_cgroup.py:245-273 | kills and removes every step group, wherever its tag is, and counts them |
| Cgroups.KilledAllEmpties | scripts/validate_cgroup.py:245-273 | afterwards no step group has a live process, and every process elsewhere, the supervisor's included, is untouched |
| Containment.NextInv | scripts/validate_cgroup.py:22-44 | forks, setsid, setpgid, exits, moves and kills in any order keep a moved leader's whole tree in its group and nothing else there |
| Containment.TreesApart | scripts/validate.py:699-701 | trees of different steps share no process |
| Containment.KillEmpties | scripts/validate_cgroup.py:41-44 | once the leader has moved or died, cgroup.kill leaves nothing of its tree alive |
| Teardown.NoEscapee | scripts/validate.py:746-759 | in every run from the start, a step whose closing cgroup.kill is done has no live process, then and ever after |
| Teardown.ReapClean | scripts/validate.py:640-660 | a reap begun once the leader has moved or died leaves nothing alive from its first half on |
| Teardown.UninterruptedReapClean | scripts/validate.py:653-658 | the two kills with nothing in between leave nothing alive at any moment, before the leader's move included |
| Teardown.RacedReap | scripts/validate.py:640-660 | otherwise some interleaving leaves a live process: the leader moves and forks between the two kills |
| Teardown.RaceFromStart | scripts/validate.py:640-660 | from any start any step can be raced by its first reap |
| Teardown.RaceExists | scripts/validate.py:640-660 | so a reap is raced in some run from a start with a single step of any name |
| Teardown.ReapCleanExactly | scripts/validate.py:788-796 | a reap is clean in every interleaving exactly when the leader had moved or was dead when it began |
| Teardown.UngroupedReapExactly | scripts/validate_cgroup.py:11-14 | without step groups a reap is clean in every interleaving exactly when nothing of the step was alive |
| Teardown.KillpgLeavesExactly | scripts/validate.py:655-660 | one killpg leaves exactly the live processes outside the leader's group |
| Teardown.LeaderKilled | scripts/validate.py:655-658 | the guard of killpg never spares a step's own leader |
| Teardown.ReapSparesOthers | scripts/validate.py:647-652 | neither half of a reap kills the runner or a process of another step |
| Teardown.SparesExactly | scripts/validate_cgroup.py:63-67 | in the runs from a start reaps spare all other steps exactly when no two steps share a directory |
| Teardown.MoveNeverMisses | scripts/validate_cgroup.py:190-194 | a live leader finds its directory in every reachable state |
| Teardown.NothingLeftAtExit | scripts/validate.py:1260-1265 | in every run from the start, at the normal exit no step group holds a live process |
| CivilDate.IntermediatesInRange | mtg-engine/build.rs:95-108 | every intermediate stays in its commented range and within i64 |
| CivilDate.BuildDateCorrect | mtg-engine/build.rs:95-107 | for every u64 the date is valid and its day count by real year and month lengths is epoch / 86400 |
| CivilDate.DayNumberInjective | mtg-engine/build.rs:95-107 | no other valid date has that day count |
| CivilDate.DayLaterIsNextDate | mtg-engine/build.rs:95-107 | 86400 seconds later is the calendar's next day |
| CivilDate.SameTextSameDay | mtg-engine/build.rs:108-109 | two moments print the same text exactly when they fall on the same day |
| CivilDate.TextReadsAsDate | mtg-engine/build.rs:95-109 | for every u64 the text reads as year, month and day, in that order and width, of the date whose day count is epoch / 86400 |
| Digits.PadRoundTrip | web/deck_storage.js:136-140 | a padded numeral in any base reads back as the number |
| Tar.NameFieldExact | web/deck_storage.js:142-148 | a name is read back exactly when it has at most 100 bytes and no NUL |
| Tar.SizeFieldExact | web/deck_storage.js:136-152 | a size is read back exactly when it is below 8^12 |
| Tar.SumFits | web/deck_storage.js:159-162 | the checksum of any header fits six octal digits |
| Tar.ChecksumVerifies | web/deck_storage.js:159-162 | the checksum field, read as octal, is the byte sum with that field as spaces |
| Tar.HeaderNotZero | web/deck_storage.js:194-196 | no header looks like the end of the archive |
| Tar.WriteTarHeader | web/deck_storage.js:142-164 | filling the 512 bytes in place gives the fields side by side, none overwriting another: mode, owner, date, typeflag, magic and version as the format has them at its offsets, zeros elsewhere |
| Tar.HeaderIsUstar | web/deck_storage.js:149-158 | every header is of a regular file with mode 0644, owner and date zero, magic ustar and version 00, each at its offset |
| Tar.ChecksumFieldFormat | web/deck_storage.js:159-162 | the checksum stands in six octal digits, a NUL and a space |
| Tar.SizeFieldFormat | web/deck_storage.js:136-152 | a size below 8^11 stands in eleven octal digits and a NUL |
| Tar.ConcatChunks | web/deck_storage.js:214-223 | copies the chunks one after another into one array |
| Tar.PackTar | web/deck_storage.js:170-183 | entries in order, bodies padded to blocks, two zero blocks |
| Tar.ReadStr | web/deck_storage.js:207-212 | the bytes up to the first NUL or the field's end |
| Tar.PackRoundTrip | web/deck_storage.js:170-205 | reading an archive gives its members in order, names cut to 100 bytes |
| TarLayout.PackedAt | web/deck_storage.js:170-183 | each member stands right after the one before it, header, body and zeros, in as few whole blocks as hold it |
| TarLayout.PackedEnd | web/deck_storage.js:182 | exactly two blocks of zeros follow the last member |
| TarReader.CutArchive | web/deck_storage.js:188-205 | an archive cut short anywhere gives the members whose headers are there, the last with as much of its body as is, and nothing else |
| TarReader.SizeOfField | web/deck_storage.js:198 | a size field that shows no sign: spaces, then octal digits and their number; nothing is zero, anything else no number |
| TarReader.NumberlessEnds | web/deck_storage.js:198-203 | a size that is no number gives an empty member and ends the reading |
| Dck.DeckToDck | web/deck_storage.js:252-263 | the printer's pushes and join give the specified text |
| Dck.DckToDeck | web/deck_storage.js:265-290 | the line loop with its section state gives the specified parse |
| Dck.ParseIsGood | web/deck_storage.js:265-290 | whatever is parsed has a trimmed one-line name and trimmed one-line card names |
| Dck.DckRoundTripExact | web/deck_storage.js:252-290 | a deck with its name is parsed back from its text exactly when name and cards are of that form |
| DckMeaning.ParseMeans | web/deck_storage.js:265-290 | of any text the last name line gives the name, and a card belongs to the sideboard exactly when the last header before it mentions one |
| DckMeaning.MatchCardExactly | web/deck_storage.js:284-286 | a trimmed line is a card exactly when it is digits, white space and a name, with that count and name |
| DckMeaning.LinesExactly | web/deck_storage.js:270 | lines end at newlines and lose one carriage return before each |
| DckMeaning.PrintedDeck | web/deck_storage.js:252-263 | the printed text of a deck with one card on each side, character by character |
| DeckCodec.CollectionToFiles | web/deck_storage.js:293-299 | each deck's text is stored under its sanitised file name, later ones replacing earlier |
| DeckCodec.FilesToCollection | web/deck_storage.js:302-309 | each text that parses with a name is assigned under it |
| DeckCodec.LastFileDecides | web/deck_storage.js:302-309 | of several files bearing a name the one listed last gives its deck |
| DeckCodec.CollectionRoundTripExact | web/deck_storage.js:293-313 | a collection survives its files exactly when every deck is well formed and no two share a file name |
| DeckCodec.PackTgz | web/deck_storage.js:170-185 | the archive of the sorted names, compressed |
| DeckCodec.ReadTar | web/deck_storage.js:188-205 | the offset loop gives the specified files, a size that is no number ending it |
| DeckCodec.LastMemberDecides | web/deck_storage.js:199-201 | of several members with a file name the last gives its text |
| DeckCodec.FilesNamed | web/deck_storage.js:199-201 | members without a name leave no file |
| DeckCodec.UnpackTgz | web/deck_storage.js:188-205 | decompressing and reading give the archive's files |
| DeckCodec.SaveLoadExact | web/deck_storage.js:170-313 | collection to files to tar bytes to files to collection is the identity exactly when every deck is well formed and the stored names are distinct |
| DeckCodec.SaveAndLoad | web/deck_storage.js:170-313 | the four loops one after another give the collection back under exactly that condition |
| DeckCodec.SharedNameLoses | web/deck_storage.js:311-313 | decks named a/b and a_b never both survive |
| DeckCodec.ArchiveDeterministic | web/deck_storage.js:172 | the bytes do not depend on the order the object lists its keys |
| ReadBack.KeptExactly | web/deck_storage.js:293-313 | what is read back includes all that was saved, or equals it, exactly when every deck is well formed and the stored names are distinct; it is always well formed and never larger |
| ReadBack.LaterOverwrites | web/deck_storage.js:293-298 | of two decks with one file name just the one listed later is read back |
| StoredNames.UnsharedExactly | web/deck_storage.js:311-313 | no other deck is stored under the name of this one exactly when its name is fewer than 96 letters, digits, blanks, dots and hyphens |
| StoredNames.PlainFile | web/deck_storage.js:293-313 | such a name is stored as itself with the extension |
| DeckProtocol.AcceptedReplacesBase | web/deck_storage.js:397-416 | an accepted conditional write replaces exactly the content its collection was read from, or was saved as |
| DeckProtocol.RunInv | web/deck_storage.js:364-416 | in every interleaving every base a device holds, and every cached pair, is a version that was stored, as written or as read back |
| DeckProtocol.NoLostUpdate | web/deck_storage.js:364-416 | accepted writes form one chain of versions, each reading back as the codec has it, and a refused tag is no longer the current one |
| DeckProtocol.PutKeepsExactly | web/deck_storage.js:397-413 | in any run, after an accepted write readers find all that was written, and just that, exactly when the collection is restorable |
| DeckProtocol.RestorablePut | web/deck_storage.js:364-416 | while all earlier writes are restorable, a write starts from exactly what readers find, and a restorable one leaves exactly what it wrote |
| DeckProtocol.TaglessOnlyCreates | web/deck_storage.js:402-406 | a collection read under no tag, or an empty one, can be saved only as the first version |
| DeckMigration.AddMissing | web/deck_storage.js:495-501 | adds exactly the local decks whose name is not in the object, and counts them |
| DeckMigration.AssignAll | web/deck_storage.js:531 | assigns every local deck but under the prototype's name |
| DeckMigration.AdditiveMonotone | web/deck_storage.js:475-506 | in any concurrent run of additive migrations with restorable writes stored bindings are never removed or changed |
| DeckMigration.NamesMonotone | web/deck_storage.js:483-534 | with both migrations writing restorable collections, names are never removed |
| DeckMigration.ReturnedBinds | web/deck_storage.js:483-506 | while writes are restorable a migration that returned, even from a stale cache, leaves its local names bound for good, inherited names excepted |
| DeckMigration.AdditiveRemoves | web/deck_storage.js:477-506 | an additive migration removes a stored deck whose name has the same file name, in a run from the start |
| DeckMigration.SlashRemovesUnderscore | web/deck_storage.js:477-506 | so migrating "a/b" removes a stored "a_b" |
| DeckMigration.BindsAllExactly | web/deck_storage.js:475-506 | in every run whose other writes are restorable a migration keeps what was stored and binds all local decks, exactly when no local name is inherited and all local decks are well formed under plain names |
| DeckMigration.OverrideExact | web/deck_storage.js:519-534 | after restorable writes migrateAll leaves exactly the collection before it overridden by the local one, exactly when that is restorable |
| DeckMigration.OverrideBinds | web/deck_storage.js:519-534 | its names stay bound for good while writes are restorable |
| DeckMigration.OverridesExactly | web/deck_storage.js:508-534 | every local deck becomes the stored copy and the others stay, whatever restorable collections came before, exactly when all local decks are well formed under plain names |
| Regex.Match | bug_finding/network_test_lib.py:264-329 | the backtracking search returns only genuine matches |
| Regex.MatchExactly | bug_finding/network_test_lib.py:309-329 | it finds one exactly when some division of the text fits the pattern |
| Regex.TakesFound | bug_finding/network_test_lib.py:264-269 | where each item can end in one way first, those are the ends found |
| Splitting.SplitJoins | bug_finding/network_test_lib.py:325 | splitting on the token and weaving it back is the identity |
| Splitting.SplitExactly | bug_finding/network_test_lib.py:325 | the parts are the only ones that hold no token and give the text when woven with it |
| Oracle.TolerableExactly | bug_finding/network_test_lib.py:309-329 | a difference is tolerated exactly when the server has no token and token-free parts, two or more, give the client's line with the token between them and the server's with some non-empty text free of newlines in place of each token, up to a closing newline |
| Oracle.NewlineNotTolerated | bug_finding/network_test_lib.py:324-329 | a name with a newline is not tolerated, though the server's line is the client's with the token replaced |
| Oracle.PublicUntouched | bug_finding/network_test_lib.py:294-306 | text that is neither draw nor loss line is its own normal form |
| Oracle.ComparePerspective | bug_finding/network_test_lib.py:332-365 | the loop counts exactly the divergent positions, the shorter log padded, and formats the first eight and the number left |
| Oracle.FirstFewExactly | bug_finding/network_test_lib.py:352-357 | shown are the first eight divergences, or all |
| Oracle.PartReads | bug_finding/network_test_lib.py:352-357 | each is shown by its number counted from one and what both sides have there |
| Oracle.ExcerptExactly | bug_finding/network_test_lib.py:360 | of each line the first 140 characters are quoted |
| Oracle.SampleTells | bug_finding/network_test_lib.py:361-364 | beyond eight, the number left out is told |
| Oracle.SampleEmptyExactly | bug_finding/network_test_lib.py:358-365 | the sample is empty exactly when nothing diverges |
| Oracle.FalsesExactly | bug_finding/network_test_lib.py:345-360 | these are all and only the positions that disagree, in order |
| Oracle.MissingNeverAgrees | bug_finding/network_test_lib.py:347-359 | a line missing on one side is never excused when the other is tagged |
| Oracle.ZeroExactly | bug_finding/network_test_lib.py:332-365 | on tagged logs the count is zero exactly when lengths are equal and every position is equal, equal once hidden parts are masked, or a masked name |
| Oracle.PublicMustMatch | bug_finding/network_test_lib.py:353-359 | a public line must be identical on both sides |
| Oracle.UntaggedExtraLine | bug_finding/network_test_lib.py:347-358 | without the tags a client's extra line reading just the token is excused |
| OracleMasks.DrawNormal | bug_finding/network_test_lib.py:264-306 | a line with one draw keeps everything but the card's name |
| OracleMasks.DrawsNormal | bug_finding/network_test_lib.py:264-306 | of a line with any number of draws every name is masked and nothing else changes |
| OracleMasks.DrawsAgreeExactly | bug_finding/network_test_lib.py:294-359 | two such lines agree exactly when all around the drawn text is the same, whatever that text is, or the client's only masks names |
| OracleMasks.LossNormal | bug_finding/network_test_lib.py:267-305 | a text with a loss line keeps who lost and who won; turn, step, life and all around the line are dropped |
| OracleMasks.LossesAgreeExactly | bug_finding/network_test_lib.py:267-359 | two such texts agree exactly when loser and winner are the same, or the client's only masks names |
| OracleMasks.LossTailExcused | bug_finding/network_test_lib.py:267-305 | whatever the client adds after a loss line is excused |
| Patterns.DrawFoundExactly | bug_finding/network_test_lib.py:264-265 | a draw is found exactly when the text divides into anything ending at a word edge, draws, a name without newlines, a number in parentheses, and anything |
| Patterns.LossFoundExactly | bug_finding/network_test_lib.py:267-270 | a loss is found exactly when the text holds the tag, a loser, a life and a winner in this form |
| Patterns.TaggedExactly | bug_finding/network_test_lib.py:262 | a line is tagged exactly when it holds the tag with some turn and step |
| FrontMatter.ConcatLines | scripts/check_beads_dup_keys.py:89-123 | splitting and joining a text is the identity |
| FrontMatter.LinesExactly | scripts/check_beads_dup_keys.py:89 | the lines are the only pieces that give the text and have a newline nowhere but at their end |
| FrontMatter.KeyOfExactly | scripts/check_beads_dup_keys.py:48 | a line has a top-level key exactly when it is the key, blanks and a colon, then anything |
| FrontMatter.SplitFrontmatter | scripts/check_beads_dup_keys.py:51-63 | the first fence after an opening fence on the first line |
| FrontMatter.FrontEndExactly | scripts/check_beads_dup_keys.py:51-63 | front matter ends at the first --- after an opening one on the very first line, and is none without both |
| FrontMatter.NoFrontMatter | scripts/check_beads_dup_keys.py:92-97 | a text that does not begin with --- has no duplicates and is left alone |
| FrontMatter.FindDuplicateKeys | scripts/check_beads_dup_keys.py:66-81 | every key that appears more than once, with how often |
| FrontMatter.RepairText | scripts/check_beads_dup_keys.py:84-123 | the two loops drop exactly the key lines whose key comes again |
| FrontMatter.KeptOnce | scripts/check_beads_dup_keys.py:84-88 | one line of each key is kept and no key is lost |
| FrontMatter.KeptLast | scripts/check_beads_dup_keys.py:84-88 | of each key its last line is the one kept |
| FrontMatter.OthersKept | scripts/check_beads_dup_keys.py:99-121 | lines that are no top-level key all stay, in order |
| FrontMatter.RepairKeepsOwnersExactly | scripts/check_beads_dup_keys.py:99-121 | every other line keeps the key it stands under exactly when no dropped key line is directly followed by one |
| FrontMatter.ChildChangesOwner | scripts/check_beads_dup_keys.py:117-121 | the item under the first of two equal keys falls to the key above them |
| FrontMatter.KeptSubsequence | scripts/check_beads_dup_keys.py:112-121 | the repaired body is a subsequence of the body |
| FrontMatter.DroppedLines | scripts/check_beads_dup_keys.py:112-121 | exactly count - 1 lines of each duplicated key are dropped |
| FrontMatter.RepairedLines | scripts/check_beads_dup_keys.py:123 | only the front matter differs |
| FrontMatter.RepairCleans | scripts/check_beads_dup_keys.py:84-123 | afterwards no key is duplicated, and repairing again changes nothing |
| FrontMatter.UnchangedExactly | scripts/check_beads_dup_keys.py:96-97 | a text is left as it is exactly when it has no duplicate |

## Left out

- The Rust engine's rules, snapshots and replication, the web UI and the agent and benchmark drivers.
- Processes, pipes, timeouts, log files, git and systemd around a step: a step completes by an arbitrary ok or fail event.
- The loop of `Runner.run` with its threads and sleeps: a run is any interleaving of passes, registrations and completions, each one critical section.
- Wall-clock time: the makespan bounds count unit ticks, each a pass, one unit of work for every running step and the completions due; steps do not fail in them.
- Makespan.ListSchedulingBound: is about steps that need no resource; with resources the bound proved is `Makespan.WallWithinSerial`.
- The float memory factor is a fraction rounded down, and the baseline numbers are parameters.
- The summary and duration kept with a finished step, and the printing of results.
- The kernel: a kill is one atomic step on the process table, pids are not reused, in runs a step's group directory can be made and its leader's self-move succeeds when the directory is there, and a process's control group changes only by that move.
- Control-group memory limits, OOM counters, peak readings and the delegation of controllers.
- Cgroups.StepCgroups.PrepareCommand: the memory limits it writes are not modelled, being kernel settings.
- Cgroups.StepCgroups.constructor: enabling the controllers afterwards is not modelled; it never fails the set-up.
- Processes of the scope root fork and exit during the drain only between a round's read and its moves.
- `stop_scope` and the signal handlers, which end the runner as well.
- Step tags are assumed to have distinct directories wherever another step's processes matter (`NoClash`); `Cgroups.SanitizeClash` says when they do not.
- gzip and UTF-8 are parameters: an inverse pair, and an encoder and decoder that agree except that the decoder drops a leading byte-order mark and ASCII is itself.
- Numbers in card counts and sizes are exact at any magnitude, where JavaScript rounds above 2^53; negative and fractional size fields are not modelled as numbers.
- A deck always has both card lists; the printer's defaults for absent ones are not modelled.
- The asynchronous functions of the deck store are one event per request or cache access; fetching credentials and other failing requests are events that do not happen.
- The protocol assumes that equal tags name equal contents, that objects are never deleted, and that no deck's text reaches the 8^12 bytes a size field can hold.
- The debounced save, the download helpers, IndexedDB itself and the authentication calls.
- Letters, digits and white space in patterns are the ASCII ones, and case folding is ASCII.
- Filtering and reading the game logs; in the sample text the client's label is upper-cased as ASCII.
- The last lines of a text end at a newline only: the other separators Python splits on are not modelled.
- Command-line handling, file reading and the reports of the front-matter checker.
