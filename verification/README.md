# GateForge command line: verified models

GateForge is a release gate: it takes the bytes of a workspace, decides which tests and evidence they need, grades the
result against owner-declared policy and, in managed mode, lets a broker turn an accepted candidate into a commit. The
modules here model the parts of its command-line package whose mistakes would be silent, and prove what they promise.

- **Candidate trees** (`GitObjects`, `MerkleTree`, `TreeBuilder`, `WorkspaceWalk`, `WalkMeaning`, `CandidateTree`): a
  stack walk turns a workspace into flat entries and a deepest-first pass builds the Git tree objects in a
  content-addressed store. The walk equals a declarative description over paths, the builder refines a recursive Merkle
  tree, and the result reads back as exactly the entries. SHA-1 is a function that tells the framed objects in play
  apart.
- **Diffs and configuration text** (`LineDiff`, `ConfigText`, `ConfigEdit`, `ConfigSyntax`, `ConfigRest`,
  `ConfigRepeat`, `ConfigLoneCr`, `ConfigMeaning`, `ConfigDiff`): the longest common subsequence diff is optimal and
  lossless; the line-splicing writer of `evidence.exclude` keeps everything else, is refused exactly for what the given
  document says, is idempotent on lines and, on text, exactly when no line it keeps ends in CR; the printed hunk really
  applies.
- **Planning** (`ProjectClosure`, `ScopedPlan`, `PlanMeaning`): the worklist over a possibly cyclic project graph, and
  the slice of tests and obligations a changed-file set must certify.
- **Grading** (`EvidenceAuth`, `Grading`, `GradingMeaning`): which witnessed records keep their tier, and how baseline
  forgiveness, strict mode and scope act on verdicts and blocking entries: monotonicity, commutation, non-merging of
  contexts, and what each result is over the fields of the inputs.
- **The commit broker** (`Receipts`, `Broker`, `BrokerCommand`): a protocol of single reads and git calls, run by any
  number of brokers while other actors rewrite the workspace, add objects and move refs. Every value a broker reads from
  the workspace is arbitrary, so an actor may change it between any two reads.
- **Run history, input snapshots, the task runner, arguments** (`RunHistory`, `HistoryMeaning`, `InputSnapshot`,
  `SnapshotMeaning`, `SnapshotDiff`, `ModulePath`, `TaskRunner`, `CommandLine`, `CommandReading`, `ShellQuoting`).
- **Shared** (`Text`, `Lists`, `Sorting`): code-unit and byte orders, splitting and joining, decimals, filters, stable
  sorting.

Loops over mutable state are methods proved against specification functions or declarative descriptions; the lemmas
then say what those mean, down to fields, positions and characters. `dafny verify dfyconfig.toml` checks the project.

## Where a claim holds only under a condition

- Run history: replaying the change-only log does not always give the latest status. It does right after a recording;
  after later prunings exactly when the test's last row is still inside every window (`RunHistory.ReplayAfterPruning`,
  `RunHistory.UnchangedStatusCanBeForgotten`). For the same reason the test filter of a query does not find a run in
  which the test's status did not change.
- Configuration text: the second identical edit is a no-op exactly when no line of the given document outside the
  requested lists ends in CR (`ConfigRepeat.RepeatIsNoOp`). A text whose last line ends in a lone CR breaks it: the
  first call writes CR LF there, which the second call reads as a line end
  (`ConfigLoneCr.RepeatCanChangeTheText`, `ConfigLoneCr.ClockExample`).
- Input snapshot: the overlap guard is off when the relative path of the state directory starts with the two characters
  `..`, be the directory outside the repository (`--out ../s`) or inside under such a name (`--out ..state`), while the
  exclusion of the state directory stays on. A declared input vanishes exactly when it lies below such a directory, the
  engine does not generate it and no absence mark stands for it (`InputSnapshot.NoDeclaredInputVanishes`,
  `InputSnapshot.DotDotPrefixHidesInputs`); `InputSnapshot.InsideDocumentVanishes` and
  `InputSnapshot.OutsideDocumentVanishes` are one input of each kind. Committed files are hidden under the same
  condition (`InputSnapshot.NoCommittedFileIsHidden`).
- Changed-scope planning: a claimed obligation has a planned row exactly when a claiming file has a test the supervised
  runner can plan (`ScopedPlan.PlannedIffPlannable`). A claim through another runner's test, or through one with an
  informational note, counts as claimed and may plan nothing (`ScopedPlan.ClaimedWithoutRow`).
- Changed-scope planning: affected obligations as values, and covered fingerprints, grow with the changed set when
  obligation ids are unique, which the policy engine promises; ids, files and rows grow without that.

## Where code and comments differ

The models follow the code.

- `packages/cli/src/evaluate.ts:805-807` calls evidence-context blockers "never waived", but they pass through
  `applyBaseline` with all other entries, so a baseline that holds such an entry's fingerprint forgives it
  (`Grading.NeverScopedAway` states exactly that, and `Grading.EvidenceCanBeForgiven` gives the baseline).
- `packages/cli/src/execution.ts:714-720` says a claiming file plans all its catalog rows; `planExpectedSet` leaves out
  rows of other runners and rows with an informational note.
- `packages/cli/src/mapping.ts:654` announces capped context runs in `diffLines`; the code prints every context line.
- `packages/cli/src/evidence-config-text.ts:58-60` says a blank line ends a key's block; the code skips blank lines.
- `packages/cli/src/execution.ts:647-649` says the widened plan is sorted; the code sorts only when it adds a row.
- `packages/cli/src/input-snapshot.ts:1092-1101` accepts a bytecode exclusion of one segment at the repository root,
  because "no `__pycache__` segment" and "last segment but one" are both index -1 there.
- `example/task/server.js:136-243` shares idempotency keys between tasks, and does not consult a task's idempotency
  setting.

## Model

| member | source | states |
|---|---|---|
| `LineDiff.FillTable` | `packages/cli/src/mapping.ts:656-672` | every cell of the table filled from the last row and column backwards is the length of a longest common subsequence of the two suffixes |
| `LineDiff.Trace` | `packages/cli/src/mapping.ts:673-696` | the greedy walk over the finished table prints exactly the script the specification derives from the longest common subsequences |
| `LineDiff.DiffLines` | `packages/cli/src/mapping.ts:656-696` | the printed lines are that script for the two texts split at newlines; an empty old text has no lines, an empty new text has one |
| `LineDiff.LcsUpperBound` | `packages/cli/src/mapping.ts:656-672` | no common subsequence of two line lists is longer than the table value (independent, subsequence-based definition) |
| `LineDiff.ScriptIsLossless` | `packages/cli/src/mapping.ts:673-696` | kept and removed lines spell the old file, kept and added lines the new one, and as many lines are kept as a longest common subsequence has |
| `LineDiff.ScriptIsOptimal` | `packages/cli/src/mapping.ts:656-696` | no script that turns one file into the other has fewer added or removed lines, nor more kept lines |
| `LineDiff.ScriptOfEqual` | `packages/cli/src/mapping.ts:673-696` | the diff of a file with itself is context only |
| `LineDiff.NoEditsMeansEqual` | `packages/cli/src/mapping.ts:673-696` | a script without added and removed lines exists only between equal files |
| `LineDiff.RemovalsComeFirst` | `packages/cli/src/mapping.ts:673-696` | in every printed script no removed line directly follows an added one, so each run of edits lists its removals first |
| `LineDiff.DiffSpellsBothTexts` | `packages/cli/src/mapping.ts:656-696` | the printed text lines spell both texts, at text level, with no old line exactly for an empty old text |
| `GitObjects.FrameDecodes` | `packages/cli/src/git-objects.ts:41-44` | the frame is the type, a space, the payload length in decimal, a NUL and the payload, and the type and the payload are read back from it |
| `GitObjects.FrameInjective` | `packages/cli/src/git-objects.ts:41-44` | two framed objects with the same bytes have the same type and payload |
| `GitObjects.SerializeTreePayload` | `packages/cli/src/git-objects.ts:58-65` | the push loop yields the concatenation of mode, space, name, NUL and the raw id of every entry in order |
| `GitObjects.PayloadBytes` | `packages/cli/src/git-objects.ts:46-65` | byte for byte, a payload is its entries one behind the other: the octal mode as Git stores it, a space, the name, a NUL and the 20 raw bytes |
| `GitObjects.PayloadRoundTrip` | `packages/cli/src/git-objects.ts:58-65` | a reader of tree objects gets back exactly the entries a payload was made from, for every list of valid names and 20-byte ids |
| `GitObjects.PayloadInjective` | `packages/cli/src/git-objects.ts:58-65` | two entry lists with the same payload are the same list |
| `GitObjects.TreeOrderIsPathOrder` | `packages/cli/src/git-objects.ts:80-97` | comparing a directory as its name plus `/` is path order: every path below an earlier entry precedes every path below a later one, bytewise, at any depth |
| `GitObjects.LooseObjectWriter.Write` | `packages/cli/src/git-objects.ts:128-160` | the id is the hash of the frame, the store gains exactly that framed object unless it already had an object of that id, and nothing stored before changes |
| `MerkleTree.DirectoryListing` | `packages/cli/src/candidate-tree.ts:683-742` | reading the object of a directory and everything below it lists exactly the rows the entries under that directory give, in strictly increasing path order |
| `MerkleTree.TreeReadsBack` | `packages/cli/src/candidate-tree.ts:683-742` | a store that holds the tree objects of some entries lists exactly those entries (path, mode, id) from the root id |
| `MerkleTree.ListingDeterminesEntries` | `packages/cli/src/candidate-tree.ts:683-742` | two entry sets with the same recursive listing are the same set |
| `MerkleTree.ListingProperties` | `packages/cli/src/candidate-tree.ts:400-414` | the recursive listing is strictly increasing in the bytes of the full path and holds exactly one row for each entry |
| `MerkleTree.OrderIrrelevant` | `packages/cli/src/candidate-tree.ts:716-732` | the order in which entries are given changes no tree id |
| `MerkleTree.SameIdIffSameEntries` | `packages/cli/src/candidate-tree.ts:683-742` | if the hash tells the objects in play apart, two entry lists get the same root id exactly when they are the same set |
| `MerkleTree.ChildKeysDistinct` | `packages/cli/src/git-objects.ts:80-97` | siblings never compare as equal, so the canonical order is strict |
| `MerkleTree.StoreIsGenuine` | `packages/cli/src/git-objects.ts:128-160` | in a content-addressed, collision-free store the object under a tree id is that tree object |
| `TreeBuilder.Climb` | `packages/cli/src/candidate-tree.ts:694-712` | climbing from an entry records every ancestor directory once, each under its parent |
| `TreeBuilder.Group` | `packages/cli/src/candidate-tree.ts:691-712` | after the grouping pass every directory knows exactly its files and subdirectories |
| `TreeBuilder.BuildTreeLevel` | `packages/cli/src/candidate-tree.ts:400-414` | one level is stored as the tree object of its children in canonical order |
| `TreeBuilder.BuildDirectory` | `packages/cli/src/candidate-tree.ts:716-732` | a directory whose subdirectories are built gets exactly the id the recursive Merkle definition gives it |
| `TreeBuilder.BuildTreeFromEntries` | `packages/cli/src/candidate-tree.ts:683-742` | the deepest-first pass returns the recursive root id, never hits the missing-subtree refusal, and fails only the final tree check |
| `TreeBuilder.SubtreesReady` | `packages/cli/src/candidate-tree.ts:716-732` | when a directory's turn comes all its subdirectories have been built |
| `TreeBuilder.BuiltTreeReadsBack` | `packages/cli/src/candidate-tree.ts:683-742` | after the pass the root id lists back exactly the given entries, and the root object is a tree |
| `TreeBuilder.LevelIsGenuine` | `packages/cli/src/candidate-tree.ts:400-414` | every directory id is in the store and holds that directory's own tree object |
| `WorkspaceWalk.InspectExcludedDirectory` | `packages/cli/src/candidate-tree.ts:195-222` | inside an excluded directory the walk refuses exactly when an unsupported entry can be reached |
| `WorkspaceWalk.VisitEntry` | `packages/cli/src/candidate-tree.ts:240-346` | one directory entry is emitted, descended into, skipped or refused as its kind and the exclusions say; emitted blobs are stored at once |
| `WorkspaceWalk.ReadDirectory` | `packages/cli/src/candidate-tree.ts:225-350` | one pop of the stack moves what the directory owes to the collected list or to the stack |
| `WorkspaceWalk.CollectEntries` | `packages/cli/src/candidate-tree.ts:160-353` | on success: strictly sorted, duplicate-free, and exactly the entries with no excluded, documentation or cache ancestor and not cache-excluded themselves, all stored; it fails exactly when an unsupported entry is reached |
| `WorkspaceWalk.GatherMeaning` | `packages/cli/src/candidate-tree.ts:225-350` | the entries the walk owes are the ones whose every ancestor directory is open and whose own step emits, stated over paths |
| `WorkspaceWalk.FaultMeaning` | `packages/cli/src/candidate-tree.ts:225-350` | the refusals the walk owes are the reachable entries it may not accept, stated over paths |
| `WorkspaceWalk.CollectedIsValid` | `packages/cli/src/candidate-tree.ts:351-353` | collected entries have real paths, each once |
| `WalkMeaning.WhatIsIncluded` | `packages/cli/src/candidate-tree.ts:225-346` | exactly which entries the walk includes, by what stands at their path: regular files with their executable bit and the hash of their bytes, links as mount markers or with the bytes of their target, below directories that are all read |
| `WalkMeaning.FileIsIncluded` | `packages/cli/src/candidate-tree.ts:326-346` | a regular file that is read has exactly one entry: its own executable bit and the hash of the blob of its bytes |
| `WalkMeaning.FileIsStored` | `packages/cli/src/candidate-tree.ts:326-346` | under the id of an included file the store holds the blob of its bytes, when the hash tells the stored objects from it |
| `WalkMeaning.WhatIsRefused` | `packages/cli/src/candidate-tree.ts:240-325` | exactly what is refused where the walk looks: nested `.git`, special files, links that are not recorded, and approved exclusions that are not what they were approved as |
| `WalkMeaning.WhatIsExcluded` | `packages/cli/src/candidate-tree.ts:170-180` | only a run-state directory inside the workspace is excluded, by the rest of its name; the workspace itself is refused |
| `CandidateTree.ComputeCandidateTree` | `packages/cli/src/candidate-tree.ts:611-665` | walk and builder together: the returned id lists back exactly the included workspace entries, or a reachable unsupported entry is reported |
| `CandidateTree.ReadsBack` | `packages/cli/src/candidate-tree.ts:611-665` | the composition reads back through the store at every sufficient depth |
| `CandidateTree.ChangedFileChangesTheId` | `packages/cli/src/candidate-tree.ts:611-665` | two workspaces that differ in the bytes or the executable bit of one included file get different tree ids, when the hash tells the objects in play apart |
| `CandidateTree.CandidateTreeCoversCommit` | `packages/cli/src/candidate-tree.ts:517-560` | covered exactly when every committed path outside the exclusions is in the candidate with the same mode and id and every extra path is git-ignored |
| `CandidateTree.CoveringMeansContaining` | `packages/cli/src/candidate-tree.ts:517-560` | for two trees that read back as entry sets, covering is inclusion of the committed entries plus ignored extras |
| `CandidateTree.WhenATreeCovers` | `packages/cli/src/candidate-tree.ts:517-560` | the same over the entries themselves: every committed entry at no approved path is a candidate entry, and Git ignores all candidate paths the commit does not have |
| `CandidateTree.CutAtLastSlash` | `packages/cli/src/candidate-tree.ts:694-712` | cutting a joined path at its last slash gives the joined parent and the last name, so paths as name lists lose nothing |
| `CommandLine.ParseArgs` | `packages/cli/src/args.ts:65-117` | the loop over argv computes the meaning given by the event reading, including every usage error |
| `CommandLine.RecordedInOrder` | `packages/cli/src/args.ts:65-117` | a flag given n times holds its n values in argv order, given once it keeps its own shape, and positionals keep their order |
| `CommandLine.RepeatableFlagReads` | `packages/cli/src/args.ts:156-165` | a repeatable flag reads as its trimmed non-blank values in argv order and is absent when there is none |
| `CommandReading.ReadsOn` | `packages/cli/src/args.ts:65-117` | a vector that is read to its end is read the same way in front of every other vector |
| `CommandReading.SpellingsAgree` | `packages/cli/src/args.ts:91-104` | wherever a flag that takes a value stands, `--name value` means exactly what `--name=value` means |
| `CommandReading.WhenRefused` | `packages/cli/src/args.ts:84-104` | exactly when a vector is refused, and with which error: it is read up to a token that starts with `--=`, or up to a flag that takes a value and is last or in front of another flag |
| `CommandReading.BehindDoubleDash` | `packages/cli/src/args.ts:69-79` | everything behind `--` joins the positionals in order, whatever it looks like, and no option changes |
| `CommandReading.WhatARepeatableFlagReads` | `packages/cli/src/args.ts:156-165` | character by character: the values that are not all white space, in order, without white space at either end |
| `CommandLine.PrintThenParse` | `packages/cli/src/args.ts:65-117` | printing a parse as `--name`, `--name=value`, `--` and positionals, in any option order, and parsing again gives the same parse |
| `ShellQuoting.QuoteReadsAsOneWord` | `packages/cli/src/args.ts:179-181` | a reader following sections 2.2.1 and 2.2.2 of the POSIX.1-2017 Shell Command Language reads a quoted value as that single word, whatever it contains and whatever follows |
| `ShellQuoting.CommandReadsBack` | `packages/cli/src/args.ts:167-181` | a whole printed command reads back as exactly its arguments |
| `TaskRunner.TaskState.constructor` | `example/task/server.js:311-316` | a fresh state is empty |
| `TaskRunner.TaskState.RunTask` | `example/task/server.js:136-243` | the attempt loop changes counters, audit trail and idempotency store and answers exactly as the recursive specification of one call |
| `TaskRunner.AttemptsOutcome` | `example/task/server.js:136-243` | the outcome kind and number of attempts of an executed call, in closed form from profile and retry policy |
| `TaskRunner.AttemptsState` | `example/task/server.js:136-243` | an executed call records its outcome under its key and counts at most one side effect |
| `TaskRunner.ExecutedCall` | `example/task/server.js:136-243` | an executed call appends the rows of attempts 1..n with n at most the limit, every field of every row given, all retries before the last; it reports its last failure exactly when it is exhausted |
| `TaskRunner.RunConsistent` | `example/task/server.js:136-243` | after every sequence of calls each side-effect counter is the number of non-deduped success rows of that task, and every key has at most one success |
| `TaskRunner.TrailExplainsCounters` | `example/task/server.js:136-243` | the audit trail alone determines the counters |
| `TaskRunner.RecordedForever` | `example/task/server.js:90-97` | a recorded outcome is never overwritten |
| `TaskRunner.KeyExecutesOnce` | `example/task/server.js:136-243` | a key executes at most once; every later call with it returns the recorded outcome and appends one deduped row, every field of it given |
| `RunHistory.HistoryFiles.PruneRunHistory` | `packages/cli/src/history.ts:29-61` | both files keep exactly the parsable lines inside the window, and run directories without a retained run are removed |
| `RunHistory.HistoryFiles.RecordRunHistory` | `packages/cli/src/history.ts:74-107` | after pruning, the run is indexed, its summary stored, and one row is appended for every test whose status changed |
| `RunHistory.RecordingReplays` | `packages/cli/src/history.ts:74-107` | right after a recording, last-row-wins replay gives the recorded run's status of each of its tests |
| `RunHistory.AlwaysSound` | `packages/cli/src/history.ts:29-107` | after every orderly sequence of recordings and prunings, times are ordered, neighbouring rows of a key differ in status, and run directories are the indexed ids |
| `RunHistory.PruneKeepsLatest` | `packages/cli/src/history.ts:29-61` | pruning an ordered log keeps a key's latest row or forgets the key altogether |
| `RunHistory.ReplayAfterPruning` | `packages/cli/src/history.ts:29-107` | after later prunings a test of the latest run still replays to its status exactly when its last row is inside the smallest window |
| `RunHistory.LatestRunReplays` | `packages/cli/src/history.ts:29-107` | the same for the latest recording of any orderly sequence of operations on empty files |
| `RunHistory.UnchangedStatusCanBeForgotten` | `packages/cli/src/history.ts:29-107` | the plain claim is false: for every test with an unchanged status whose first row expires before the newer run, pruning leaves an indexed run whose test has no status |
| `RunHistory.QueryRunHistory` | `packages/cli/src/history.ts:118-138` | the answer is the indexed runs that pass the three filters, in time order |
| `RunHistory.TestFilterFindsChanges` | `packages/cli/src/history.ts:118-138` | for a run just recorded, the test filter finds it exactly when the status of a matching test changed: an unchanged test does not show the run |
| `HistoryMeaning.WhatPruningKeeps` | `packages/cli/src/history.ts:29-61` | pruning keeps exactly the fresh parsable lines of both files, in order, and the directories of the runs it keeps |
| `HistoryMeaning.WhatARecordingAdds` | `packages/cli/src/history.ts:74-107` | a recording appends, behind the pruned lines, the run and one row for exactly the tests, in order, whose last recorded status is missing or another |
| `HistoryMeaning.WhatAQueryAnswers` | `packages/cli/src/history.ts:118-138` | the answer picks exactly the parsable index lines that are not older than `since`, have failures when only those are asked for, and mention the test when one is named; ordered by time, lines of one time in file order |
| `ConfigText.FindKeyBlock` | `packages/cli/src/evidence-config-text.ts:70-95` | the two scanning loops find the first declaring line and the end of its block |
| `ConfigText.SetListWithin` | `packages/cli/src/evidence-config-text.ts:121-154` | one list is inserted or replaced, or refused for an inline value or a body that is not a list |
| `ConfigText.AddHeaders` | `packages/cli/src/evidence-config-text.ts:187-212` | missing `evidence:` and `exclude:` headers are added; inline ones are refused |
| `ConfigText.SetEvidenceExclude` | `packages/cli/src/evidence-config-text.ts:178-244` | the whole edit, including the read-back check, as a function of the text |
| `ConfigEdit.FoundIsBlock` | `packages/cli/src/evidence-config-text.ts:70-95` | what the search finds is a block: no earlier declaring line, only blank or deeper lines, a last line that is not blank, then a line that is not deeper |
| `ConfigEdit.BlockIsFound` | `packages/cli/src/evidence-config-text.ts:70-95` | every such block is what the search finds, so its extent is unique |
| `ConfigSyntax.BlockAtIs` | `packages/cli/src/evidence-config-text.ts:70-95` | the same block character by character: the first line that is the key at this indent, and the lines that are blank or start with more white space |
| `ConfigSyntax.SaysIs` | `packages/cli/src/evidence-config-text.ts:80-95` | the value of a key line is what stands between the colon and the first `#` behind white space, without white space at its ends |
| `ConfigEdit.EditSettles` | `packages/cli/src/evidence-config-text.ts:178-221` | an accepted edit leaves both headers open and each requested list exactly as this writer renders it |
| `ConfigEdit.EditIsIdempotent` | `packages/cli/src/evidence-config-text.ts:178-221` | repeating an accepted edit changes no line, for every document |
| `ConfigEdit.BlocksAreFound` | `packages/cli/src/evidence-config-text.ts:201-218` | the two "no block after insertion" refusals cannot happen |
| `ConfigMeaning.WhenAnEditIsRefused` | `packages/cli/src/evidence-config-text.ts:121-221` | exactly when an edit is refused, and why, told from the document it is given: the lines added on the way neither cause nor hide a refusal |
| `ConfigMeaning.WhatAnEditWrites` | `packages/cli/src/evidence-config-text.ts:98-154` | each requested list has its key line with the comment it had, and one item for each value, in order, that a JSON reader gets the value back from |
| `ConfigMeaning.JsonReadsBack` | `packages/cli/src/evidence-config-text.ts:98-103` | a reader of JSON strings (section 7 of RFC 8259) gets every rendered value back |
| `ConfigMeaning.WhichHeadersAreAdded` | `packages/cli/src/evidence-config-text.ts:187-212` | which headers are added and where: both at the end, behind a blank line when the last line is indented; `exclude:` at the end of the `evidence` block; or none |
| `ConfigMeaning.WhereANewListGoes` | `packages/cli/src/evidence-config-text.ts:128-137` | a list the document does not have goes to the end of the `exclude` block |
| `ConfigMeaning.WhichLinesAreRead` | `packages/cli/src/evidence-config-text.ts:184-186` | the edited lines are the text cut at LF, without one CR in front of each LF and without an empty end |
| `ConfigMeaning.WhenATextIsWritten` | `packages/cli/src/evidence-config-text.ts:178-244` | a text is returned exactly when the edit is not refused and the reader finds every requested list in it as requested |
| `ConfigRest.HeadersOnlyInserted` | `packages/cli/src/evidence-config-text.ts:187-212` | the header step only inserts the missing header lines, at one place between two top-level keys |
| `ConfigRest.EditKeepsTheRest` | `packages/cli/src/evidence-config-text.ts:213-220` | every line of the document outside the requested lists survives an accepted edit, in order, with at most the header lines added at one place |
| `ConfigEdit.StepKeepsOther` | `packages/cli/src/evidence-config-text.ts:121-154` | setting one list leaves the other one untouched wherever the two stand |
| `ConfigRepeat.RepeatIsNoOp` | `packages/cli/src/evidence-config-text.ts:178-244` | a second call with the same lists returns the same text exactly when no line of the given document outside the requested lists ends in CR |
| `ConfigRepeat.RepeatIsNoOpWithoutCr` | `packages/cli/src/evidence-config-text.ts:178-244` | in particular whenever no line of the first document ends in CR |
| `ConfigRepeat.EditEnds` | `packages/cli/src/evidence-config-text.ts:178-221` | the edited document has a line ending in CR exactly when the edit keeps one: rendered lists, carried comments and headers never end in CR |
| `ConfigLoneCr.RepeatCanChangeTheText` | `packages/cli/src/evidence-config-text.ts:184-222` | for every document that ends in a lone CR and has no `evidence` key, and whatever top-level keys the reader demands of it, setting the documentation list is accepted and setting it again changes the text |
| `ConfigLoneCr.ClockExample` | `packages/cli/src/evidence-config-text.ts:184-222` | one such text, written out |
| `ConfigLoneCr.WrittenReadsBack` | `packages/cli/src/evidence-config-text.ts:184-185` | reading a written text gives its lines, each without one CR at its end |
| `ConfigRepeat.TextReadsBack` | `packages/cli/src/evidence-config-text.ts:255-260` | splitting a written text without CR LF pairs gives back the lines it was joined from |
| `ConfigRepeat.EditAddsNone` | `packages/cli/src/evidence-config-text.ts:178-221` | an edit never adds a CR or a LF inside a line |
| `ConfigDiff.ConfigTextDiff` | `packages/cli/src/evidence-config-text.ts:273-297` | the two index loops and the printed text |
| `ConfigDiff.PrintedReadsBack` | `packages/cli/src/evidence-config-text.ts:290-296` | a patch reader (header lines, ranges, marked lines) gets back exactly the printed hunk, below the two lines that name the file |
| `ConfigDiff.HunkApplies` | `packages/cli/src/evidence-config-text.ts:276-289` | at its stated old line the hunk turns the old lines into the new ones, and at its stated new line back |
| `ConfigDiff.HunkIsSmallest` | `packages/cli/src/evidence-config-text.ts:276-287` | no hunk that replaces one run of lines removes or adds fewer lines (prefix and suffix are maximal and do not overlap) |
| `ConfigDiff.DiffApplies` | `packages/cli/src/evidence-config-text.ts:273-297` | end to end: the printed text, read and applied at its stated line, turns one text's lines into the other's |
| `ProjectClosure.ReachedByEdge` | `packages/cli/src/execution.ts:670-687` | the worklist ends on every graph, cyclic ones too, and reaches exactly the projects a path of dependency edges leads to and the selection does not name |
| `ProjectClosure.PlannedRowsWithProjectDependencies` | `packages/cli/src/execution.ts:659-704` | the widened plan by the path-based definition of reachability |
| `ProjectClosure.WidenedMembers` | `packages/cli/src/execution.ts:689-697` | the widened plan holds the selected rows and exactly the unselected rows of reached projects |
| `ProjectClosure.WidenedOrder` | `packages/cli/src/execution.ts:696-703` | the plan is in logical-key order whenever a row is added, and unchanged otherwise |
| `ProjectClosure.WidenedDistinct` | `packages/cli/src/execution.ts:689-703` | distinct logical keys stay distinct |
| `ProjectClosure.WideningIsIdempotent` | `packages/cli/src/execution.ts:659-704` | widening a widened plan changes nothing |
| `ProjectClosure.NeighboursStayOut` | `packages/cli/src/execution.ts:664-669` | a project the selection names itself contributes no further row |
| `ProjectClosure.FullPlanIsUnchanged` | `packages/cli/src/execution.ts:643-645` | a full plan is left as it is |
| `ProjectClosure.DependenciesArePlanned` | `packages/cli/src/execution.ts:633-641` | no dependency edge of a planned project points outside the plan when the dependency has rows |
| `ScopedPlan.PlanExpectedSet` | `packages/cli/src/execution.ts:510-552` | the plannable rows of the catalog in logical-key order |
| `ScopedPlan.FindAffected` | `packages/cli/src/execution.ts:779-801` | the filter and the group loop compute the affected obligations in id order |
| `ScopedPlan.FilesOf` | `packages/cli/src/execution.ts:820-833` | the files of one obligation's declared bindings that the current catalog still enumerates |
| `ScopedPlan.PlanScopedExpectedSet` | `packages/cli/src/execution.ts:741-875` | the plan meets the declarative description of each of its parts |
| `ScopedPlan.PlanIsDetermined` | `packages/cli/src/execution.ts:741-875` | that description leaves no choice |
| `PlanMeaning.WhichAreAffected` | `packages/cli/src/execution.ts:779-801` | over the mappings: an id is affected exactly when a source of its resource changed or a declared binding names a changed test file; without known sources no source changed, and inferred bindings declare nothing |
| `PlanMeaning.WhichAreAdopted` | `packages/cli/src/execution.ts:838-862` | without a forgiven set nothing is adopted; otherwise an affected id without a claim is adopted exactly when an affected obligation with that id has its fingerprint in the set, and unclaimed exactly when one has it outside |
| `PlanMeaning.ClaimedInIs` | `packages/cli/src/execution.ts:805-833` | a file claims an id exactly when the last mapping of the id has a declared binding with an instance the catalog still enumerates there |
| `PlanMeaning.WhichArePlanned` | `packages/cli/src/execution.ts:820-867` | exactly which files are required and which catalog rows are planned |
| `PlanMeaning.PlannedAsOften` | `packages/cli/src/execution.ts:510-552` | a row is planned as often as the catalog holds it |
| `PlanMeaning.EverythingInOrder` | `packages/cli/src/execution.ts:779-875` | affected obligations and ids are in id order, files and fingerprints in name order, rows in key order |
| `ScopedPlan.AffectedIds` | `packages/cli/src/execution.ts:779-800` | an id is affected exactly when an obligation with it is touched by its sources or a changed test file declares a claim for it |
| `ScopedPlan.AffectedAre` | `packages/cli/src/execution.ts:779-800` | with unique ids, the same for the obligations themselves |
| `ScopedPlan.ThreeWaySplit` | `packages/cli/src/execution.ts:820-862` | claimed, adopted and unclaimed ids together are the affected ids, each as often as it is affected |
| `ScopedPlan.ExactlyOne` | `packages/cli/src/execution.ts:834-862` | every affected obligation is exactly one of claimed, adopted, unclaimed |
| `ScopedPlan.PlannedAre` | `packages/cli/src/execution.ts:863-863` | a row is planned exactly when it is plannable and its file is required |
| `ScopedPlan.ResolvesWhenEnumerated` | `packages/cli/src/execution.ts:805-830` | a mapped instance resolves exactly when the current catalog enumerates its runner key |
| `ScopedPlan.ClaimedIsPlanned` | `packages/cli/src/execution.ts:714-720` | a claimed obligation has a required file with a catalog entry, and every plannable row of that file is planned |
| `ScopedPlan.PlannedIffPlannable` | `packages/cli/src/execution.ts:820-867` | an affected obligation has a planned row exactly when a file that claims it has a test the runner can plan |
| `ScopedPlan.ClaimedWithoutRow` | `packages/cli/src/execution.ts:513-519` | an obligation mapped to another runner's test is claimed, neither adopted nor unclaimed, and the plan is empty |
| `ScopedPlan.PlanGrowsWithChanges` | `packages/cli/src/execution.ts:741-875` | a larger changed set affects, requires, plans and (with unique ids) covers at least as much |
| `ScopedPlan.ForgivingMovesToAdopted` | `packages/cli/src/execution.ts:838-854` | forgiving more fingerprints only moves obligations from unclaimed to adopted |
| `EvidenceAuth.VerifierKeys` | `packages/cli/src/evaluate.ts:1210-1213` | the key list holds every configured key once |
| `EvidenceAuth.ValidateEnvelope` | `packages/cli/src/evaluate.ts:1272-1358` | a durable or live envelope is accepted or rejected for the first failing check, in the order of the code |
| `EvidenceAuth.ValidateCarried` | `packages/cli/src/evaluate.ts:1421-1460` | exactly the carried envelopes that authenticate in their own context are accepted |
| `EvidenceAuth.AuthorizeRecords` | `packages/cli/src/evaluate.ts:1182-1512` | order and every other field of the records stay, a record keeps its witnessed tier exactly when it is proven, and the list of evidence blockers is ordered as in the code |
| `EvidenceAuth.StaysWitnessed` | `packages/cli/src/evaluate.ts:1272-1460` | exactly which records stay witnessed, over the fields: some manifest, live or carried envelope parses, a configured key verifies its MAC, it carries the expected digest and, where one is required and set, the expected invocation and manifest run, and it names the run and the id |
| `EvidenceAuth.RejectedBecause` | `packages/cli/src/evaluate.ts:1272-1358` | exactly why the run's own envelope is rejected: the first failing condition, over the fields |
| `EvidenceAuth.WhichBlockers` | `packages/cli/src/evaluate.ts:1246-1475` | exactly which blockers changed inputs, a missing snapshot and the manifest's envelope give |
| `EvidenceAuth.WhichEnvelopeBlockers` | `packages/cli/src/evaluate.ts:1462-1495` | exactly which blockers the live envelope and missing envelopes give |
| `EvidenceAuth.OneSignedBody` | `packages/cli/src/evaluate.ts:1163-1176` | a record that stays witnessed is covered by one body whose MAC a configured key verifies over run, invocation, digest and ids together, in one expected context |
| `EvidenceAuth.OnlyIssuedRecords` | `packages/cli/src/evaluate.ts:1155-1181` | when MACs cannot be forged, only records issued for that run stay witnessed |
| `EvidenceAuth.ChangedInputsLeaveCarried` | `packages/cli/src/evaluate.ts:1283-1291` | changed inputs silence the run's own envelopes; exactly the carried channel remains |
| `EvidenceAuth.NoKeyNoWitness` | `packages/cli/src/evaluate.ts:1177-1180` | without a key nothing stays witnessed |
| `EvidenceAuth.FailsClosed` | `packages/cli/src/evaluate.ts:1462-1495` | witnessed records without an accepted envelope always block the run |
| `EvidenceAuth.MoreKeysNeverDemote` | `packages/cli/src/evaluate.ts:1319-1325` | adding verifier keys never demotes a record and never blocks a run that was not blocked |
| `Grading.SplitBlockingByBaseline` | `packages/cli/src/evaluate.ts:1038-1078` | kept entries, the fingerprint count, the identity set and whether the receipt has the classification layer |
| `Grading.ApplyBaseline` | `packages/cli/src/evaluate.ts:953-1005` | re-graded verdicts, kept entries and all four counters, the distinct adopted identities included; an absent or empty baseline changes nothing |
| `Grading.SplitPartitions` | `packages/cli/src/evaluate.ts:1026-1034` | kept, identity-forgiven and fingerprint-forgiven entries partition the blocking list without double counting |
| `Grading.SmallerBaselineBlocksMore` | `packages/cli/src/evaluate.ts:940-952` | a smaller baseline never blocks less: entry by entry, verdict by verdict, and as a run |
| `Grading.CountIsRegraded` | `packages/cli/src/evaluate.ts:979-991` | the obligation counter is the number of verdicts whose tier changed, and those carry the baseline's reason |
| `Grading.ForgivingTwice` | `packages/cli/src/evaluate.ts:953-1005` | forgiving twice is forgiving once |
| `Grading.WhatBlocks` | `packages/cli/src/evaluate.ts:664-682` | which obligations block in the end, exactly, with and without strict mode and the survival flag |
| `Grading.StrictIgnoresBaseline` | `packages/cli/src/evaluate.ts:833-845` | under strict mode without the survival flag every baseline gives the same blocking obligations |
| `Grading.ScopeBlocking` | `packages/cli/src/evaluate.ts:416-460` | an entry is kept unless it is unclassified, attributable and has no changed source; business rules always stay |
| `Grading.EvaluateRun` | `packages/cli/src/evaluate.ts:763-938` | scope, grade, forgive, re-grade and decide as the code orders them; the returned counters are those of the scoped verdicts and entries |
| `GradingMeaning.VerdictsOfRun` | `packages/cli/src/evaluate.ts:763-938` | exactly which obligations are graded, in order: all of the run's whose resource has a changed source, when there is a changed set, and whose id is selected, when there is a selection; and how each verdict ends |
| `GradingMeaning.EntriesOfRun` | `packages/cli/src/evaluate.ts:1080-1122` | exactly which entries block in the end, over their fields, the baseline and the scope |
| `GradingMeaning.WhenARunBlocks` | `packages/cli/src/evaluate.ts:664-682` | a run blocks exactly when an entry stays or an obligation in scope ends neither satisfied nor waived |
| `GradingMeaning.CountersOfRun` | `packages/cli/src/evaluate.ts:953-1078` | what each of the four counters counts, by positions |
| `Grading.ScopingCommutes` | `packages/cli/src/evaluate.ts:1125-1136` | the verdicts of a diff-scoped or named run are the full run's verdicts for the scoped obligations, in order, through baseline and strict re-grading |
| `Grading.NarrowedBlocksLess` | `packages/cli/src/evaluate.ts:1080-1122` | a diff-scoped or named run keeps no blocking entry the full run does not keep, counted with multiplicity, and blocks only where the full run blocks |
| `Grading.NeverScopedAway` | `packages/cli/src/evaluate.ts:805-807` | no scope removes a declared business rule or an evidence blocker; only the baseline can, exactly when it forgives the entry |
| `Grading.EvidenceCanBeForgiven` | `packages/cli/src/evaluate.ts:805-807` | a baseline that holds an evidence blocker's fingerprint drops it, which contradicts the comment |
| `InputSnapshot.AssertOutputDisjoint` | `packages/cli/src/input-snapshot.ts:818-903` | the overlap refusals, in the order of the code |
| `InputSnapshot.BuildFileEntries` | `packages/cli/src/input-snapshot.ts:767-796` | one entry for every inventory item outside the state directory, sorted by path, or the first refusal |
| `InputSnapshot.CollectInputFiles` | `packages/cli/src/input-snapshot.ts:1063-1127` | guards, inventory and entries together |
| `InputSnapshot.InventoryMembers` | `packages/cli/src/input-snapshot.ts:1120-1125` | the inventory is strictly sorted and holds exactly the declared and tracked items the exclusions leave |
| `InputSnapshot.CollectedMembers` | `packages/cli/src/input-snapshot.ts:767-796` | the snapshot has an entry for every listed item outside the state directory and nothing else |
| `SnapshotMeaning.WhatASnapshotHolds` | `packages/cli/src/input-snapshot.ts:767-796` | item by item: a file is recorded with its own kind and digest, an absence mark and a missing untracked path as absent; each reported item outside the state directory has one entry, sorted by path, and there is no other |
| `SnapshotMeaning.WhyCollectingFails` | `packages/cli/src/input-snapshot.ts:767-796` | once the guards pass, collecting fails exactly with the first reported item, in path order, that cannot be recorded |
| `SnapshotMeaning.WhenTheStateOverlaps` | `packages/cli/src/input-snapshot.ts:818-903` | exactly when the state directory is refused, and why, over the committed and declared paths |
| `SnapshotMeaning.WhenAFolderIsRefused` | `packages/cli/src/input-snapshot.ts:1074-1091` | exactly when an approved documentation folder is refused, and why: no plain names, nested with the state directory, or covering a declared input that is there |
| `SnapshotMeaning.WhenAFileIsRefused` | `packages/cli/src/input-snapshot.ts:1092-1110` | the same for an approved bytecode file, which must be a `.pyc` or `.pyo` file directly in `__pycache__` |
| `SnapshotMeaning.WhichGuardRefuses` | `packages/cli/src/input-snapshot.ts:1063-1119` | which guard refuses, exactly: the state directory, else the first refused documentation folder, else the first refused bytecode file, else the mounts |
| `InputSnapshot.DeclaredIsNotExcluded` | `packages/cli/src/input-snapshot.ts:1088-1110` | an accepted exclusion never covers a declared input that is there |
| `InputSnapshot.DeclaredHasEntry` | `packages/cli/src/input-snapshot.ts:1063-1127` | unless a dependency mount supplies it, a declared input has an entry exactly when it is not under the state directory |
| `InputSnapshot.NoDeclaredInputVanishes` | `packages/cli/src/input-snapshot.ts:798-817` | a declared input has an entry or is an engine-generated state path, if and only if it is not swallowed: below a state directory whose relative path starts with `..`, not generated and without an absence mark |
| `InputSnapshot.NoCommittedFileIsHidden` | `packages/cli/src/input-snapshot.ts:849-873` | no committed file lies under the state directory, unless its relative path starts with `..`; then the committed files do not matter |
| `InputSnapshot.DotDotPrefixHidesInputs` | `packages/cli/src/input-snapshot.ts:881-881` | for every state directory whose relative path starts with `..`, any further input declared below it is accepted and has no entry |
| `InputSnapshot.InsideDocumentVanishes` | `packages/cli/src/input-snapshot.ts:881-881` | with `--out ..state` the snapshot holds the configuration file and lacks the declared `..state/x` |
| `InputSnapshot.OutsideDocumentVanishes` | `packages/cli/src/input-snapshot.ts:881-881` | with `--out ../s` it lacks the policy document declared as `../s/p` |
| `InputSnapshot.RelativeInside` | `packages/cli/src/input-snapshot.ts:773-775` | the relative path of a directory inside the repository is its own names |
| `SnapshotMeaning.RelativeIs` | `packages/cli/src/input-snapshot.ts:773-775` | a relative path is one `..` for each directory to leave and then the names to enter |
| `SnapshotMeaning.RelativeLeadsThere` | `packages/cli/src/input-snapshot.ts:773-775` | following the relative path of a directory from where it starts leads to that directory |
| `InputSnapshot.OrderDoesNotMatter` | `packages/cli/src/input-snapshot.ts:1121-1126` | declaring or tracking the same paths in another order, or twice, gives the same snapshot |
| `SnapshotDiff.DiffInputFiles` | `packages/cli/src/input-snapshot.ts:1139-1155` | the differences are exactly the removed, changed and added paths, sorted and each listed once |
| `SnapshotDiff.WhatIsReported` | `packages/cli/src/input-snapshot.ts:1139-1155` | which texts are reported, over the last entry of each path: removed, added, or changed when kind or digest differ |
| `SnapshotDiff.SilentMeansSame` | `packages/cli/src/input-snapshot.ts:1139-1155` | the check is silent exactly when both inventories hold the same entry for every path |
| `SnapshotDiff.SilentMeansEqual` | `packages/cli/src/input-snapshot.ts:1139-1155` | with one entry a path in path order, silence means equality of the lists |
| `ModulePath.NormalizeRepoModule` | `packages/cli/src/input-snapshot.ts:474-492` | the segment loop |
| `ModulePath.NormalizedNamesTheSamePlace` | `packages/cli/src/input-snapshot.ts:462-473` | a specifier, with `/` for every backslash, is turned down exactly when its walk leaves the repository at some point; otherwise the result has plain segments only and names the place the specifier leads to |
| `Receipts.VerifyWithKeyring` | `packages/cli/src/verifier-keys.ts:144-187` | the key ring loops give the loop-free verdict: a named ring key must sign itself, otherwise any ring key may |
| `Receipts.AcceptedIff` | `packages/cli/src/verifier-keys.ts:144-187` | exactly which receipts are accepted: parsed, signed by the first ring key with the named id or, when the ring has none, by some ring key, bound to the expected tree, policy and boundary, and clean |
| `Receipts.RefusedBecause` | `packages/core/src/receipt/index.ts:320-486` | exactly why a receipt is refused: form, then signature, then policy, tree, boundary and outcome |
| `Receipts.EvaluateApprovedPolicy` | `packages/cli/src/trusted-policy.ts:292-314` | enforced, unenforced or blocked, as the resolution and strictness say |
| `Receipts.PinBinds` | `packages/cli/src/trusted-policy.ts:276-314` | a readable pin binds every commit; without one nothing strict passes; unenforced exactly when not strict and no pin can be read |
| `Broker.CheckedReceipt` | `packages/cli/src/broker.ts:278-348` | a receipt that passes binds everything the broker froze before |
| `Broker.NextKeeps` | `packages/cli/src/broker.ts:224-415` | every event of any broker or other actor keeps the protocol invariant |
| `Broker.AcceptedMovesAreAuthorized` | `packages/cli/src/broker.ts:224-415` | in every run, each broker move replaces the value the ref (under its own or a symbolic name) had at that moment by a commit with that parent and the ingested tree, under an authenticated receipt for tree, policy, boundary and parent |
| `Broker.LogExplainsRefs` | `packages/cli/src/broker.ts:405-415` | the refs, symbolic ones included, are exactly what the log of changes makes of the first refs |
| `Broker.OneMovePerAttempt` | `packages/cli/src/broker.ts:161-176` | a rejected or unfinished attempt has moved no ref; an accepted one exactly one, once |
| `Broker.NoUpdateIsLost` | `packages/cli/src/broker.ts:377-415` | while only brokers move a ref, by its own or a symbolic name, every value it had, the first one included, stays in the first-parent history of its current value |
| `BrokerCommand.Repository.UpdateRef` | `packages/cli/src/broker.ts:405-408` | compare-and-swap on one ref |
| `BrokerCommand.Freeze` | `packages/cli/src/broker.ts:202-375` | the sequence of checks ends where the protocol's decision steps end |
| `BrokerCommand.BrokerCommit` | `packages/cli/src/broker.ts:178-425` | one attempt with arbitrary other actors between its git calls is a finished run of the protocol, leaves the repository as that run does and answers as that run ends |
| `BrokerCommand.AttemptOutcome` | `packages/cli/src/broker.ts:178-425` | the exact answer and change of an attempt under any interference: which check refuses it, over the fields of request, pin and receipt, or whether the ref still has the sealed parent when it is moved |
| `BrokerCommand.UndisturbedAttempt` | `packages/cli/src/broker.ts:178-425` | with nobody else at work: the exact answer and the exact refs, accepted only when every check on the request, the pin and the receipt passes, the sealed parent agrees and the new id is free |

## Left out

- `annotationTestMapEntries` and `annotationMapSyncAdvisories` (`packages/cli/src/mapping.ts:198-322`): grouping and set
  comparison only.
- `endpoint-compiler.ts`, `docs-exclusions.ts`, `glob.ts`, the workflow, webhook, auth, validation and accounts
  examples, CI templates and hooks: tables, handlers and walks that would add only easy members.
- File and process failures (unreadable files, full disks, git failing to start), zlib compression, temp-file renames
  and file permissions beyond the executable bit.
- SHA-1, HMAC and schema validation are functions with stated hypotheses: collision-free on the framed objects in play,
  and a MAC predicate. That a MAC cannot be forged is a hypothesis only of `EvidenceAuth.OnlyIssuedRecords`.
- `pathIgnoredByGit`, `skipCandidateTreeCacheDirectory`, obligation and entry fingerprints, `evaluateObligations`,
  `resealChainBlocking`, `sourcesByResourceId`, engine-generated state paths and the YAML reader are parameters.
- Git ids are raw bytes in tree objects and opaque strings in the broker; Git modes are a datatype of the four modes the
  code writes.
- Strings are sequences of Unicode scalar values, compared by UTF-16 code units or UTF-8 bytes as the code compares
  them; lone surrogates are not modelled.
- Paths are sequences of names in the tree modules; `CandidateTree.CutAtLastSlash` and the joined-path orders connect
  them to the strings of the code.
- Timestamps are integers: unparsable dates, `localeCompare` on other formats, and the error for an invalid `--since`
  are not modelled; neither is the failure of a query on a line that is not JSON.
- `parseArgs` options are a finite map: flags named like members of `Object.prototype` are not modelled. The same holds
  for project names in the dependency record.
- The comparator of `planExpectedSet` never returns 0; rows with equal logical keys are modelled as staying in catalog
  order.
- `evaluateRun` after the verdicts: the HTTP ledger, coverage and call findings, which join after the baseline.
- `planScopedExpectedSet` details: the texts that explain unclaimed and adopted obligations.
- Evidence and refusal texts are constructors; their wording and next actions are not modelled.
- `buildGateContext` and `digestSnapshot`: the digest is a hash of the modelled file entries and a canonical context.
- Broker: command-line usage errors, commit identity and time, annotated tags behind a ref, and the storage of the
  candidate's blobs and trees, which the tree modules cover. Symbolic refs such as the default `HEAD` are followed one
  step; a symbolic ref that points to another symbolic ref is not modelled.
- CandidateTree.ComputeCandidateTree: that the tree reads back is stated for a store whose objects already sit under
  their hashes and for a hash that tells the objects in play apart.
- BrokerCommand.BrokerCommit: other actors act between the git calls on refs and objects; what they do to the workspace
  is covered by the arbitrary values the attempt reads.
- ConfigDiff.DiffApplies: stated for a path without a newline, because a newline would split the printed file lines.
- TaskRunner.TrailExplainsCounters: stated for tasks with observability, because the others write no audit rows.
- InputSnapshot.NoDeclaredInputVanishes: stated for equal real and lexical relative paths of the state directory; the
  guard looks at the real one and the exclusion at the lexical one.
