# Evolution, evidence and workflow proofs

A Dafny 4.11 model of the parts of the repository that carry state across crashes, processes and
files, with proofs of what each promises. `dafny verify dfyconfig.toml` checks the whole project.

- **Git inventory** (`Git*.dfy`, `PathKeys.dfy`, `FileView.dfy`): raw tree bytes, the `cat-file --batch` framing,
  the level-by-level walk with its cache, and the bounded cache and comparison above it. The specification is a
  recursive flattening; the loops are proved against it.
- **Canonical JSON and ledgers** (`Wire*.dfy`, `Newlines.dfy`, `Journal.dfy`, `Ledger.dfy`, `Evolver*.dfy`): the printer
  and strict reader, newline-terminated files with crashes inside an append, and the evolution loop that rebuilds
  its variables by replay.
- **Bounded pipe transport** (`BoundedProcess.dfy`, `FilteredOutput.dfy`): the select loop as a function of the two
  streams, for every schedule, and that function in terms of the lines of the output alone.
- **Candidate forest** (`TraceLabels.dfy`, `TraceForest.dfy`, `Candidate*.dfy`): registration, labels and the stack walk.
- **Final assay** (`FinalSelection.dfy`, `Population*.dfy`, `FinalAssay*.dfy`): finalists, the exact draw, the append-only
  Population ledger and the rules it enforces, and any number of processes that finish one experiment.
- **Workflow registry** (`Registry*.dfy`): commands, detached workers and two kinds of lock as a transition system whose
  steps interleave freely and may stop anywhere.
- **Kernel session** (`Kernel*.dfy`): requests, deadlines, restarts and restored state over one kernel at a time.
- **Artifacts and receipts** (`ArtifactPaths.dfy`, `Agent*.dfy`, `Reports.dfy`, `Receipt*.dfy`): normal forms and
  identities, and the replay of one generation against its evaluator traces.

`Order.dfy`, `Sorting.dfy`, `Text.dfy` and `JsonChecks.dfy` hold what these share. Text is a sequence of Unicode code
points, surrogates included, and bytes are a sequence of numbers below 256.

Digests are functions; wherever identity rests on one, the theorem excepts a collision of the very texts it compares:
two record bodies of the two ledgers, the two hashed artifacts, the two bodies read under one Git id. The clock, the
Controller, Git, kernels and evaluators are inputs that may answer anything the code does not rule out.

## What the code does that its documentation does not say

- A string whose two neighbouring code points are a high and a low surrogate prints like the single character
  they encode, so canonical JSON is a faithful identity only without such pairs (`WireCanonical.RoundTrip`).
- `_completed_final` reads `record_id` from an item that has only `evidence`, `measurements` and `run`
  (`apps/coding_agent/experiment_runtime.py:326`, `apps/population/population_protocol.py:683-693`). A run killed after its
  final run is recorded and before its report is written can therefore never be resumed
  (`FinalAssayRuns.RecordedRunCannotBeResumed`, `ResumeProceedsIffUndeclared`).
- `start_workflow` numbers its job before it takes the worker lock, so a resume in between can claim the same
  number and one job file replaces the other, even that of a running worker. A number is given twice if and only if
  the start and a launch have both numbered a job and neither has written it
  (`RegistryNumbers.NumbersRepeatIffWritersMeet`, `ClashesIff`). At most one worker runs all the same.
- A start killed between making its directory and writing `workflow.json` blocks every later start, because the
  registry cannot read that workflow (`RegistryStall.KilledStartStalls`, `StalledForGood`).
- A timed-out request other than `execute` leaves its answer in the queue, and every later request then fails until
  a restart (`KernelSession.Session.Request`). After a failed restart `execute` fails on a missing kernel rather than
  with the contract's own error.
- The single dot is accepted as a normalised artifact path (`ArtifactPaths.NormalPathMeans`).
- A Population lock is a directory, so a process killed inside one leaves it: the ledger takes no further record and the
  final assay cannot be finished until somebody removes it (`FinalAssayRuns.KilledInsideFreezes`).
- A recorded Controller request is compared with Python's `==`, under which `true` equals `1`
  (`Ledger.TrueReplaysAsOne`).
- The parent lines of a commit are split at carriage returns as well, so a header line with one inside can be read as
  a parent line that Git does not see (`GitCommit.CutLineIsParent`).

## Model

| member | source | states |
|---|---|---|
| GitTree.ParseIsInverseOfEncode | apps/coding_agent/git_inventory.py:99-136 | the entry reader accepts a tree body with entries `es` exactly when the body is the concatenation of `es` and `es` is legal, for every id size; names may hold spaces and raw ids any byte |
| GitBatch.LoadMissing | apps/coding_agent/git_inventory.py:68-93 | the imperative batch loop returns exactly what the framing function reads, faults included |
| GitBatch.ReadBatchSound | apps/coding_agent/git_inventory.py:68-93 | an accepted batch adds one digest-checked body for each requested id and nothing else, and the byte total stays the sum of the cached bodies, within 8 MiB |
| GitBatch.ReadBatchOfFrames | apps/coding_agent/git_inventory.py:68-93 | Git's framing of any requested bodies, newlines inside them included, is read back as exactly those bodies |
| GitWalk.AddEntry | apps/coding_agent/git_inventory.py:120-132 | one entry either extends the directory list or adds one file row; the duplicate-path fault never occurs; it fails exactly on an unusable entry |
| GitWalk.ScanTree | apps/coding_agent/git_inventory.py:100-136 | the entry loop of one tree adds exactly that tree's file rows and sub-directories, or fails exactly when the tree is unacceptable or too large |
| GitWalk.WalkLevel | apps/coding_agent/git_inventory.py:98-137 | one level of the walk adds exactly the rows of the frontier and yields exactly the next frontier |
| GitPaths.OnePrefix | apps/coding_agent/git_inventory.py:120-128 | a path has one directory prefix, so two trees of a level cannot name the same path |
| GitPaths.NextLevelShape | apps/coding_agent/git_inventory.py:98-137 | the frontier of the next level has distinct prefixes, all one level deeper and each below one of the present level |
| GitFlatten.LevelSplit | apps/coding_agent/git_inventory.py:57-137 | flattening a frontier is its own file rows plus the flattening of the next frontier, as multisets |
| GitFlatten.WalkIsFlatten | apps/coding_agent/git_inventory.py:57-137 | a level-by-level walk that runs out of directories has listed exactly the recursive flattening it started from, shared subtrees under every prefix |
| GitInventory.FetchLevel | apps/coding_agent/git_inventory.py:61-97 | after the fetch every tree of the level is cached and digest-checked and the total is the bytes cached; an honest Git always satisfies it |
| GitCommit.ParentsOfCommit | apps/coding_agent/git_inventory.py:44-51 | whatever the message holds, the parents read from a commit are those written on its header lines if and only if these are ASCII and no carriage return shortens a parent line or starts one inside another line |
| GitCommit.MessageNamesNoParent | apps/coding_agent/git_inventory.py:44-51 | two commits with the same header lines have the same parents, whatever the messages |
| GitCommit.CutLineIsParent | apps/coding_agent/git_inventory.py:44-51 | the condition is needed: what follows a carriage return inside another header line can be read as a parent |
| GitCommit.BindsIff | apps/coding_agent/git_inventory.py:36-51 | a commit of plain ASCII header lines is bound exactly when its bytes have its digest, its first line names the tree, and exactly one line names a parent, the expected one, when one is expected |
| GitInventory.CheckCommit | apps/coding_agent/git_inventory.py:36-51 | no tree is read unless the commit has its digest, names the tree and has exactly the expected parent; a parent mismatch is reported only for a commit that is otherwise bound |
| GitListing.HexSpells | apps/coding_agent/git_inventory.py:112-120 | an object id read from a raw id has two lower-case hexadecimal digits for each raw byte, the high one first |
| GitListing.FlattenLists | apps/coding_agent/git_inventory.py:57-137 | the recursive flattening holds exactly the files that paths of entry names lead to through directories, each under its joined path, its entry's mode and the object id its raw id spells; stated on encoded entries, without parser, recursion or digits |
| GitInventory.InventoryLists | apps/coding_agent/git_inventory.py:57-162 | an inventory lists exactly those files |
| GitInventory.Inventory | apps/coding_agent/git_inventory.py:14-162 | whatever it returns is the sorted recursive flattening of the root tree that the digest-checked commit names, whose one parent is the expected one when one is expected, within the bounds, with the byte total of the trees read; its rows are exactly the files that entry names lead to, under the ids their raw ids spell; `duplicate file path` is unreachable; and it does return when the walk stays within the bounds and Git answers truthfully whatever fits the reader's byte limit |
| GitIdentity.InventoryNoNesting | apps/coding_agent/git_inventory.py:119-128 | paths of an inventory are distinct and none is a directory prefix of another |
| GitIdentity.SameCommitSameRows | apps/coding_agent/git_inventory.py:36-43 | two inventories of one commit id list the same rows whatever Git answered in between, unless the two commit documents, or the two bodies read under one tree id, differ and have one digest |
| PathKeys.DecodeOfEncode | apps/coding_agent/file_view.py:23-24 | padded URL-safe base64 decodes back to the bytes it encodes (section 5 of RFC 4648) |
| PathKeys.SymbolsFollowTheTable | apps/coding_agent/file_view.py:23-24 | each digit is written as its symbol in the URL-safe table of RFC 4648 |
| PathKeys.DigitIff | apps/coding_agent/file_view.py:23-24 | a symbol is read as a digit exactly when that table says so, and no other character is a digit |
| PathKeys.KeyRoundTrip | apps/coding_agent/file_view.py:23-24 | an unpadded path key, padded again by its length, decodes back to the same raw path, for every path |
| PathKeys.KeyInjective | apps/coding_agent/file_view.py:23-24 | two paths with one key are one path |
| FileView.EveryRowIsKept | apps/coding_agent/file_view.py:67-77 | the dictionary keyed by path keys keeps every inventory row under its own key, with its object id and mode: none is lost or merged |
| FileView.OidsSpell | apps/coding_agent/file_view.py:14-53 | the ids a candidate may be bound to are exactly the spellings of raw ids of 20 or 32 bytes |
| FileView.EveryEntryIsARow | apps/coding_agent/file_view.py:67-77 | and holds nothing that is not a row |
| FileView.CandidateFiles.Inventory | apps/coding_agent/file_view.py:55-83 | whatever is returned, cached or read, is an inventory of the bound tree; the cache keeps only such inventories, its byte count is their sum and stays within 16 MiB; new entries join the cache, which is emptied first exactly when the bound would be exceeded; a refusal changes nothing, and no cached candidate, and none whose repository is served within the bounds, is refused |
| FileView.CachedEqualsFresh | apps/coding_agent/file_view.py:55-83 | a cached inventory equals one read afresh at any time, unless some tree id was read as two different bodies with one digest |
| FileView.Compare | apps/coding_agent/file_view.py:99-118 | the rows ascend strictly in raw-byte order, list each path of either snapshot exactly once, and carry the right status and both sides |
| FileView.RowsShowChanges | apps/coding_agent/file_view.py:99-112 | each row is `added` exactly when the path is in the new snapshot alone, `deleted` exactly when in the old one alone, `unchanged` exactly when blob and mode agree, and carries both sides as they are |
| FileView.ColumnsRebuild | apps/coding_agent/file_view.py:101-112 | the before and after columns rebuild the two inventories entry for entry |
| FileView.CandidateFiles.Changes | apps/coding_agent/file_view.py:91-118 | `changes` compares the candidate's inventory with that of the given base, of the recorded parent, or with nothing for a seed; it is refused only when an inventory it has to read is not served |
| WireCanonical.PrintPrintable | apps/_support/wire.py:16-24 | canonical text is printable ASCII |
| WireText.PrintIsText | apps/_support/wire.py:16-24 | the printed text is the canonical one: no blanks, members in strictly ascending key order, shortest numerals, short escapes where there are any, printable ASCII as itself and other characters as their UTF-16 units in lower-case digits; stated without the printer |
| WireCanonical.RoundTrip | apps/_support/wire.py:16-24 | strict decoding of an object's canonical text returns the object if and only if no string in it has a high surrogate directly followed by a low one |
| WireCanonical.SplitPairIsLost | apps/_support/wire.py:16-24 | the condition is needed: the split pair U+D83D U+DE00 prints like U+1F600 |
| WireCanonical.PrintInjective | apps/_support/wire.py:16-30 | two different such documents have two different canonical texts, hence two different digest inputs |
| WireReading.DecodesExactlyTheGrammar | apps/_support/wire.py:51-90 | the strict reader accepts a float-free text, as a certain object, exactly when the text is written by the grammar of RFC 8259 from a syntax tree that means this object: any blanks, any escapes, digits of either case, keys in any order, no key twice |
| WireCanonical.DecodedClean | apps/_support/wire.py:51-90 | text without surrogates decodes only to documents that satisfy the condition, so everything read from a UTF-8 file round-trips |
| WireCanonical.OneCanonicalText | apps/_support/journal.py:84-90 | a line passes the `line == canonical_json(record)` test and decodes to `v` exactly when it is the canonical text of `v`: one text per document |
| Journal.ValidatesIffContentRecord | apps/_support/journal.py:11-43 | a record validates exactly when it is what `content_record` makes of its own body |
| Journal.DecodeRecords | apps/_support/journal.py:76-90 | the decoding loop returns the records in order or the first fault |
| Journal.ReadBack | apps/_support/journal.py:46-90 | a file of appended records reads back as exactly those records |
| Journal.AppendReads | apps/_support/journal.py:93-117 | appending to any readable file, whatever its line endings, reads back as the old records and the new one |
| Journal.ReadStorable | apps/_support/journal.py:46-90 | whatever a file reads back as can be stored and read again unchanged |
| Journal.CutAppend | apps/_support/journal.py:46-117 | any readable file, cut after any character of an append, reads back as the old ledger when nothing was written, as the new one when all was, and as an error in between |
| Newlines.ReplacesTranslate | apps/_support/bounded_process.py:140-146 | the two chained replacements equal one left-to-right universal-newline pass |
| Newlines.BoundariesAre | apps/_support/journal.py:69 | the line boundaries of `str.splitlines`, one by one |
| BoundedProcess.StdoutLines.RetainLine | apps/_support/bounded_process.py:46-56 | a line and the kept output are capped separately; a refused line changes nothing |
| BoundedProcess.StdoutLines.Consume | apps/_support/bounded_process.py:58-72 | draining one chunk equals draining the buffered bytes and the chunk together; the partial line never exceeds the cap after a chunk |
| BoundedProcess.DrainChunks | apps/_support/bounded_process.py:58-72 | chunk boundaries do not matter: draining a concatenation is draining its parts in turn, at every split |
| BoundedProcess.DrainIsFilterLines | apps/_support/bounded_process.py:46-72 | draining the whole stream and finishing is the filter applied line by line |
| BoundedProcess.OnStderr | apps/_support/bounded_process.py:115-137 | one stderr read keeps a prefix of the stream within the cap, and reports an excess only when the stream exceeds the cap |
| BoundedProcess.OnStdout | apps/_support/bounded_process.py:115-137 | one stdout read keeps the state equal to the specification of the bytes read so far, reading at most one byte over the room left |
| BoundedProcess.OnStdin | apps/_support/bounded_process.py:102-114 | one stdin event moves between one and 65536 pending bytes, or gives up the rest when the pipe breaks, as the specification of the events so far says |
| BoundedProcess.FedFacts | apps/_support/bounded_process.py:102-114 | by that specification the pipe breaks only by a break in the schedule, before everything was sent, and every other turn while it is fed sends at least a byte |
| FilteredOutput.FitsIff | apps/_support/bounded_process.py:46-72 | the filtered lines fit exactly when each line is within the cap and not refused and what the filter leaves of them is within the cap together; then exactly that is kept, first line first |
| FilteredOutput.FirstFailure | apps/_support/bounded_process.py:46-72 | otherwise the first line that does not pass or does not fit decides between the size error and the filter's |
| FilteredOutput.LinesAreTheStream | apps/_support/bounded_process.py:58-72 | the lines are the stream, cut behind every newline and nowhere else |
| FilteredOutput.UnchangedKeepsStdout | apps/_support/bounded_process.py:46-72 | a filter that returns each line as it is keeps stdout as it is, exactly when it is within the cap |
| FilteredOutput.ExpectedIs | apps/_support/bounded_process.py:46-149 | the specified result exists exactly within the caps and is the two decoded texts, stdout first, of what the filter leaves and of stderr |
| BoundedProcess.Communicate | apps/_support/bounded_process.py:22-149 | for every schedule of stdout, stderr and stdin events the result is the pure function of the two streams, or the matching over-limit error; a time-out needs an unfinished schedule; what stdin receives and whether its pipe broke is the pure function of the schedule: a prefix of the source, all of it unless the schedule breaks the pipe |
| Ledger.VerifyLedger | apps/evolution_driver/evolver.py:352-404 | the replay loop computes exactly the recurrence's state, or refuses exactly when the recurrence does |
| Ledger.GenerationAccepted | apps/evolution_driver/evolver.py:373-402 | a well-made generation record is accepted exactly when its request equals the recurrence's in Python's sense and its result advances the recurrence |
| Ledger.TrueReplaysAsOne | apps/evolution_driver/evolver.py:391-393 | so a first generation whose request says `true` where the recurrence says 1 is accepted and replays like the record the loop would have written, under another identity |
| JsonChecks.PythonEqualIff | apps/evolution_driver/evolver.py:391-393 | Python's `==` holds exactly between documents that are one and the same once every boolean is replaced by the integer it equals |
| Ledger.HeaderReplays | apps/evolution_driver/evolver.py:451-469 | a fresh header replays to the initial loop variables |
| Ledger.StepReplays | apps/evolution_driver/evolver.py:485-514 | replay accepts the record a loop round appends and takes over exactly that round's parent, feedback, counts and last id |
| Evolver.Evolve | apps/evolution_driver/evolver.py:447-516 | from any state file: unreadable and unverifiable files are refused unchanged; otherwise the file holds what one run fed the accepted answers writes, always replayable; each accepted answer is what the Controller said in its round to the request the ledger led to, before the clock ran out; and the outcome is exactly the first of both limits, the clock, a missing answer and a refused answer that holds in the round after the last |
| EvolverRequests.RequestAsks | apps/evolution_driver/evolver.py:311-339 | read key by key, a Controller request carries the run's evaluation, evaluator, runner, policy, tasks and proposer, the parent's artifact, the generation number, the objective and the previous feedback, and nothing else |
| EvolverRequests.FeedbackRepeats | apps/evolution_driver/evolver.py:291-308 | feedback repeats the comparison, decision and reason of the result's own selection and the id of its next parent, under the generation number |
| EvolverRequests.FirstRequestAsks | apps/evolution_driver/evolver.py:451-490 | the first request asks for generation 1 from the configured parent with no feedback |
| EvolverRequests.AnswersFollow | apps/evolution_driver/evolver.py:473-514 | after every accepted answer of a run the next request asks, one generation on, from the parent that answer was validated to, with that answer's own selection as feedback |
| EvolverRequests.LedgerFollows | apps/evolution_driver/evolver.py:372-404 | the same over any accepted ledger, so also for the first request after a restart |
| EvolverRequests.RequestsDiffer | apps/evolution_driver/evolver.py:311-339 | equal requests of one run ask for the same generation from the same artifact after the same feedback |
| EvolverRequests.LedgerFixesRequest | apps/evolution_driver/evolver.py:365-366 | two evolution requests that accept one ledger are equal in every field, unless the documents that identify them differ and have one digest |
| EvolverRuns.RunConcat | apps/evolution_driver/evolver.py:447-514 | stopping after some answers and resuming with others is one run fed both |
| EvolverRuns.InterruptionsInvisible | apps/evolution_driver/evolver.py:447-514 | any sequence of interrupted runs writes the ledger one uninterrupted run with the same Controller answers writes |
| EvolverRuns.RunReplays | apps/evolution_driver/evolver.py:352-404 | replaying a run's ledger gives exactly the loop variables the live loop ended with, for every start that replays |
| EvolverRuns.ReplayCounts | apps/evolution_driver/evolver.py:372-404 | replay's counters are the number of generations and the trailing rejections of the ledger itself |
| EvolverRequests.RetainsIff | apps/evolution_driver/evolver.py:397-400 | what counts as a rejection is exactly the decision `retain_incumbent` in the result's selection |
| EvolverRuns.RunWithinLimits | apps/evolution_driver/evolver.py:473-483 | every record a run appends is appended below both limits |
| EvolverRuns.LedgerWithinLimits | apps/evolution_driver/evolver.py:473-483 | a ledger never exceeds `max_generations` and never continues after `max_consecutive_rejections` rejections in a row |
| EvolverRuns.HeadPinsLedger | apps/evolution_driver/evolver.py:352-404 | two accepted ledgers that end in one record id are equal record for record, even under different requests, unless a record of each, at one distance from the end, has a different body with the same digest |
| TraceLabels.BranchSuffix | apps/coding_agent/trace_labels.py:6-11 | the digit loop returns the bijective base-26 word of the index, and nothing for a negative one |
| TraceLabels.IndexOfSuffix | apps/coding_agent/trace_labels.py:6-11 | the index can be read back from its suffix |
| TraceLabels.SuffixOfIndex | apps/coding_agent/trace_labels.py:6-11 | every non-empty lowercase word is the suffix of its index: with the row above, a bijection |
| TraceLabels.SuffixOrdered | apps/coding_agent/trace_labels.py:6-11 | suffixes come in length-then-alphabetical order |
| TraceLabels.BranchLabels | apps/coding_agent/trace_labels.py:14-38 | the one-pass loop returns the label function of the whole forest |
| TraceForest.LabelsStable | apps/coding_agent/trace_labels.py:14-38 | registering more candidates never changes an existing label |
| TraceForest.LabelFacts | apps/coding_agent/trace_labels.py:19-37 | depth, branch and parent label of every candidate follow from its parent's label and whether it is the first child |
| TraceForest.BranchIsChain | apps/coding_agent/trace_labels.py:19-24 | consecutive members of a branch are a parent and its first registered child |
| TraceForest.LaterMemberDeeper | apps/coding_agent/trace_labels.py:19-25 | later members of a branch lie strictly deeper |
| TraceForest.DisplaysDistinct | apps/coding_agent/trace_labels.py:26-28 | no two candidates of a forest share a display label |
| TraceForest.BranchesAreLeaves | apps/coding_agent/trace_labels.py:18-24 | there are as many branches as candidates without children |
| CandidateRegistration.Register | apps/coding_agent/candidate_view.py:103-118 | the registration loop succeeds exactly when the candidate records form a forest of distinct identities with every single parent registered earlier, and returns that forest |
| CandidateTree.TreeRows | apps/coding_agent/candidate_view.py:179-194 | the explicit-stack walk emits the recursive preorder with siblings in registration order |
| CandidateTreeFacts.TreeListsOnce | apps/coding_agent/candidate_view.py:179-194 | every registered candidate appears exactly once |
| CandidateTreeFacts.TreePlacesRows | apps/coding_agent/candidate_view.py:186-193 | each row's depth is the number of ancestors and its indent is three characters per level |
| CandidateTreeShape.TreeIsDrawn | apps/coding_agent/candidate_view.py:179-194 | every row carries a line down for each ancestor with a younger sibling, blanks for each without, and the mark of a last or an earlier child; siblings are told apart by registration alone |
| CandidateTreeShape.TreeIsOrdered | apps/coding_agent/candidate_view.py:179-194 | parents come before their children, and everything under an older sibling before everything under a younger one |
| FinalSelection.FinalistsAreUnbeaten | apps/coding_agent/final_assay.py:61-74 | the two maxima pick exactly the members no other member beats on task rate, then reliability |
| FinalSelection.Pick | apps/coding_agent/final_assay.py:75-78 | the floor draw is a valid index for every fair draw |
| FinalSelection.ChoosersAreARange | apps/coding_agent/final_assay.py:75-77 | each index is drawn by one unbroken run of numerators, between two ceilings |
| FinalSelection.DrawIsFair | apps/coding_agent/final_assay.py:75-77 | over all numerators each finalist is drawn floor or ceiling of `denominator / n` times |
| FinalSelection.DerivedDrawLandsOnSelected | apps/coding_agent/final_assay.py:79-84 | the derived full-archive draw is fair and Population's floor rule sends it exactly to the chosen finalist |
| Population.Store.Append | apps/population/population_state.py:284-330 | a body is appended at the next position exactly when `_apply_record` admits it; otherwise nothing changes |
| Population.RunsAreOfDeclaredExperiments | apps/population/population_state.py:130-156 | in an accepted ledger every run belongs to a declared experiment |
| Population.MembersAreCandidates | apps/population/population_state.py:157-168 | in an accepted ledger every archived member is a registered candidate |
| Population.SealIsPermanent | apps/population/population_state.py:103-111 | after a final run everything accepted later is another final run |
| PopulationRules.LoadsIff | apps/population/population_state.py:94-212 | a ledger is accepted if and only if every record is allowed behind those before it, stated on records and positions alone: no candidate, experiment or run twice, parents, experiments and members known, an allocation on the latest undisturbed archive of its experiment with the drawn member of its sorted identities, and only final runs after a final run |
| FinalAssay.SettledIsUnique | apps/coding_agent/final_assay.py:96-119 | a ledger with one wanted trailing allocation leaves one choice: candidate, allocation, draw and finalists |
| FinalAssay.SelectionSettles | apps/coding_agent/final_assay.py:45-133 | selecting leaves exactly one allocation after the archive, and selecting again appends nothing and chooses the same candidate and allocation |
| FinalSelection.SelectsRightly | apps/coding_agent/final_assay.py:61-86 | the selection's finalists are exactly the unbeaten members in ascending order, its candidate is the one at the floor of the tie draw, hence unbeaten, and its draw is that candidate's rank among all members over their number |
| FinalSelection.RightlyIsUnique | apps/coding_agent/final_assay.py:61-86 | and there is only one such selection |
| FinalAssay.SelectFinalCandidate | apps/coding_agent/final_assay.py:45-133 | it succeeds exactly on a selectable ledger and settles it; the candidate is the one the tie draw falls on among the unbeaten members of the archive, and the one allocation behind the archive names it and its rank; each refusal names the first failing test and changes nothing; `selected another candidate` is unreachable |
| FinalAssay.DeclareProtected | apps/coding_agent/final_assay.py:156-172 | the protected experiment is declared exactly when no final experiment exists and Population admits it |
| FinalAssay.RecordedRunReplays | apps/coding_agent/experiment_replay.py:679-760 | the run recorded by the declaring process passes the replay of selection, seed, bundle and unique trailing allocation |
| FinalAssay.ReplayedRunIsRight | apps/coding_agent/experiment_replay.py:679-760 | a run that the replay admits is of the candidate the tie draw falls on among the unbeaten members, and its seed, bundle and allocation say so |
| FinalAssay.RunFinalAssay | apps/coding_agent/final_assay.py:291-390 | uninterrupted, it succeeds exactly on a selectable ledger whose protected experiment is undeclared and whose cases evaluate, appends exactly the missing allocation, the experiment and the run, and passes the replay; each failure leaves exactly what was reached: nothing, the allocation, or the allocation and the burnt experiment |
| FinalAssayRuns.ExecutionSafe | apps/coding_agent/experiment_runtime.py:183-209 | every interleaving of concurrent, killed and resumed processes and other Population writers keeps the ledger and every process safe |
| FinalAssayRuns.OneUse | apps/coding_agent/experiment_runtime.py:183-209 | over every such run: at most one new allocation after the archive, one final experiment, one final run, and every ledger with a final run passes the replay |
| FinalAssayRuns.OneChoice | apps/coding_agent/final_assay.py:45-133 | any two successful selections of a run return the same candidate and allocation |
| FinalAssayRuns.EveryChoiceIsRight | apps/coding_agent/final_assay.py:61-86 | whatever processes run, every choice any of them holds is that candidate |
| FinalAssayRuns.EveryFinalRunIsRight | apps/coding_agent/final_assay.py:291-390 | and so is the candidate of every recorded final run |
| FinalAssayRuns.FinalRunIsNeverRecovered | apps/coding_agent/experiment_runtime.py:302-330 | reading `record_id` from a run item fails: with one recorded final run `_completed_final` always ends in a missing key |
| FinalAssayRuns.ResumeProceedsIffUndeclared | apps/coding_agent/experiment_runtime.py:456-467 | a resumed process goes on if and only if no final experiment is declared; later processes stop |
| FinalAssayRuns.RecordedRunCannotBeResumed | apps/coding_agent/experiment_runtime.py:302-330 | from every accepted ledger on which the selection succeeds and the protected identity is free, a run reaches the state in which the final run is recorded and a resumed process stops on the missing key |
| FinalAssayRuns.KilledInsideFreezes | apps/population/population_state.py:215-240 | once a process is killed inside the ledger lock, before or after its append, nothing that runs later appends a record or finishes the assay |
| FinalAssayRuns.SomeLedgerIsSelectable | apps/coding_agent/experiment_runtime.py:302-330 | and such ledgers exist |
| Registry.RegistryStatus | apps/coding_agent/agentvolve_worker.py:622-647 | the blocker is the last live workflow, else the first unfinished one, and there is none exactly when every workflow is idle and complete or closed |
| Registry.NextOrdinal | apps/coding_agent/agentvolve_worker.py:453-473 | the next job number is positive and unused by the jobs listed |
| RegistrySafety.ExecutionSafe | apps/coding_agent/agentvolve_worker.py:349-374 | every interleaving of start, resume, retry, verify, close, worker and crash steps keeps the lock and workflow invariants |
| RegistrySafety.AtMostOneOpen | apps/coding_agent/agentvolve_worker.py:692-759 | at most one workflow is neither complete nor closed |
| RegistrySafety.AtMostOneWorker | apps/coding_agent/agentvolve_worker.py:476-534 | at most one worker of a workflow is alive, and nobody but its own launcher shares its lock |
| RegistrySafety.ClosedNeverRuns | apps/coding_agent/agentvolve_worker.py:663-689 | closing is permanent and from then on no process runs a job of that workflow |
| RegistrySafety.CompleteOrClosed | apps/coding_agent/agentvolve_worker.py:671-682 | unless an effect outlives its worker, no workflow is both complete and closed as incomplete |
| RegistrySafety.StartDecides | apps/coding_agent/agentvolve_worker.py:622-660 | alone on a free registry, a start goes on to create a workflow if and only if every workflow has its request, is idle, and is complete or closed |
| RegistrySafety.CreatingRuns | apps/coding_agent/agentvolve_worker.py:726-759 | from there it makes one workflow with job 1 and a worker that runs it |
| RegistryJobs.LaunchesIff | apps/coding_agent/agentvolve_worker.py:772-817 | under the worker lock a command goes on exactly when the workflow has a request and is not closed, a resume finds it incomplete, and a verification finds it complete |
| RegistryJobs.VerifiesOnlyComplete | apps/coding_agent/agentvolve_worker.py:811-817 | in every run a verification is numbered, written and running only on a complete workflow |
| RegistryStall.StalledForGood | apps/coding_agent/agentvolve_worker.py:599-660 | once a workflow directory has no request and no process is about to write one, every later state keeps it unrequested and unclosed, and no workflow is ever added again |
| RegistryStall.RequestedLaterIff | apps/coding_agent/agentvolve_worker.py:733-753 | a directory without request can still get one exactly when the start that made it is still about to write it |
| RegistryStall.KilledStartStalls | apps/coding_agent/agentvolve_worker.py:733-753 | a run that reaches such a state: one start, killed between making its directory and writing `workflow.json` |
| RegistryNumbers.OverwritesIff | apps/coding_agent/agentvolve_worker.py:453-473 | in every run, a write finds a job file of its number exactly when it is the start's and a launch has written since the start numbered, or it is a launch's, the start has written since the launch numbered, and the start's number was new; otherwise its number is the next one of the files there |
| RegistryNumbers.RivalWriters | apps/coding_agent/agentvolve_worker.py:453-473 | two processes about to write jobs of one workflow are the start and a launch, and they hold one number exactly when no launch has written since the start numbered |
| RegistryNumbers.ClashesIff | apps/coding_agent/agentvolve_worker.py:453-473 | exactly which numbered, unwritten jobs meet an existing file or another process with their number; every other number written is new and held by one process |
| RegistryNumbers.NumbersRepeatIffWritersMeet | apps/coding_agent/agentvolve_worker.py:756-817 | a run gives some number of a workflow twice if and only if at some point its start and a launch have both numbered a job and neither has written it |
| RegistryNumbers.JobNumbersHaveNoGaps | apps/coding_agent/agentvolve_worker.py:453-473 | even so, the numbers of a workflow's job files are always 1, 2, 3 and so on without a gap |
| RegistryNumbers.JobNumbersCollide | apps/coding_agent/agentvolve_worker.py:756 | a run in which a start and a resume hold one number, because the start numbers its job before taking the worker lock |
| RegistryNumbers.ResumeCanNumberFirst | apps/coding_agent/agentvolve_worker.py:753-756 | the same when the resume numbers before the start does |
| RegistryNumbers.StartOverwritesRunningJob | apps/coding_agent/agentvolve_worker.py:756 | a run in which the start, alone at its write, replaces the job file of a worker that is already running that job |
| RegistryNumbers.DeadLaunchClashesWithNothing | apps/coding_agent/agentvolve_worker.py:471-472 | a launch that numbers between the start's numbering and write, and dies before its own, makes nothing clash |
| KernelWire.Wire.Receive | apps/harness/kernel_contract.py:126-137 | a kernel that answers in order: the next line answers the oldest unanswered request |
| KernelSession.Session.Request | apps/harness/kernel_contract.py:398-428 | a returned answer or kernel error is the kernel's own answer to this request in this state; what is raised follows exactly from what was received; a time-out leaves one more answer owed; a kernel that still owes an answer never has one accepted and goes on owing; identities are never reused |
| KernelSession.Session.Start | apps/harness/kernel_contract.py:344-396 | either there is no kernel, or a new one whose boot wrote nothing and that has been given exactly the boot, the latest snapshot when policy restores it, and the latest workspace |
| KernelSession.Session.Execute | apps/harness/kernel_contract.py:430-473 | before the deadline the result shows the kernel's answer to this code, value and both streams in their places, or its error message, as an interruption exactly for that code, and any other answer raises; after it, whatever returns leaves a fresh kernel whose state depends only on bootstrap, snapshot and workspace, and is one of two fixed reports or shows stdout, stderr and error of the old kernel's answer to this very code, each in its place, and then that kernel owed nothing; a session without a kernel fails |
| KernelSession.Session.Expire | apps/harness/kernel_contract.py:450-472 | after the deadline the session restarts or raises; what it reports follows exactly from what came within the grace period, and only a line that answers this request, the last one owed, is shown, stdout, stderr and error in their places |
| KernelSession.Session.WorkspaceRequest | apps/harness/kernel_contract.py:522-546 | an accepted workspace initialisation counts every file and reports consistent sizes; any other answer, and nothing else, is refused |
| KernelSession.Session.Snapshot | apps/harness/kernel_contract.py:614-622 | the remembered snapshot changes only to the kernel's own answer; what is returned or raised follows exactly from what was received |
| KernelSession.Session.Restore | apps/harness/kernel_contract.py:624-629 | a snapshot becomes the remembered one exactly when the kernel, owing nothing, answered this very restore with a result; what is raised follows exactly from what was received |
| KernelSession.Session.InitializeWorkspace | apps/harness/kernel_contract.py:548-563 | files and policy are remembered together, and only when the kernel, owing nothing, answered this very request with counts of all the files; what is returned or raised follows exactly from what was received |
| KernelSession.Session.ExportWorkspace | apps/harness/kernel_contract.py:565-579 | the files the kernel, owing nothing, gives in answer to this export become the ones a restart brings back; what is returned or raised follows exactly from what was received |
| KernelSession.Session.RunWorkspaceCommand | apps/harness/kernel_contract.py:581-612 | a command answer is the kernel's answer to well-formed arguments within the policy's time; anything else about the arguments or the policy is refused, and what is raised otherwise follows exactly from what was received |
| KernelSession.Session.CleanUp | apps/harness/kernel_contract.py:631-638 | after success, which needs the kernel's result to this request, a restart would give the boot alone; after failure nothing is forgotten; what is raised follows exactly from what was received |
| KernelSession.Session.StopWire | apps/harness/kernel_contract.py:652-662 | stopping leaves no kernel and keeps its one observation |
| KernelSession.Session.Close | apps/harness/kernel_contract.py:664-694 | a closed session has no kernel and one observation for every kernel ever started; it is clean exactly when there was no kernel, or the kernel answered the shutdown with a result and exited with status zero |
| KernelSession.Open | apps/harness/kernel_contract.py:319-342 | a session handed out has a booted kernel and nothing else in its history |
| Text.HexSpelling | apps/agent_protocol.py:80-86 | hexadecimal texts of a length are exactly the spellings of that many bytes, two lower-case digits each |
| Journal.Sha256Spells | apps/agent_protocol.py:80-86 | a SHA-256 identifier is exactly the spelling of 32 bytes |
| JsonChecks.EncodableIff | apps/agent_protocol.py:369-396 | a float-free document is refused exactly for a surrogate in some string or key of it |
| JsonChecks.NonEmptyStringIff | apps/agent_protocol.py:63-77 | an accepted string has a character, no NUL and no surrogate |
| ArtifactPaths.NormalPathMeans | apps/agent_protocol.py:115-125 | a path is accepted exactly when every component is a name other than `.` and `..` and there is no backslash, or when it is the single dot |
| AgentProtocol.FileDecodes | apps/agent_protocol.py:219-233 | a file decodes from its own document and from no other |
| AgentProtocol.OutputDecodes | apps/agent_protocol.py:137-146 | an output decodes from its own document and from no other |
| AgentProtocol.PairOrder | apps/agent_protocol.py:178 | one key orders outputs as Python orders their (kind, name) pairs |
| AgentProtocol.DecodeFiles | apps/agent_protocol.py:217-241 | the loop over `files` returns the sorted files, or refuses malformed, repeated or missing ones |
| AgentProtocol.FilesNormalise | apps/agent_protocol.py:212-241 | a file list normalises to `files` exactly when `files` is in normal form and the list holds those files in some order |
| AgentProtocol.OutputsNormalise | apps/agent_protocol.py:163-178 | the same for outputs |
| AgentDocuments.DocumentSays | apps/agent_protocol.py:137-241 | read key by key, the document of an artifact says its schema and every field under its own name |
| AgentDocuments.IdentitySays | apps/agent_protocol.py:244-249 | an identity is the digest of the artifact's document under the candidate schema |
| AgentDocuments.NormalFilesAre | apps/agent_protocol.py:212-241 | files are normal exactly when they ascend strictly by path, each is well formed, and a skill file that is not empty is among them |
| AgentDocuments.NormalOutputsAre | apps/agent_protocol.py:163-178 | outputs are normal exactly when they ascend strictly by kind, and by name within a kind, and each is well formed |
| AgentCandidates.DecodesUpToOrder | apps/agent_protocol.py:196-241 | decoding accepts exactly the documents of normal artifacts, files and outputs in any order, and returns that artifact, across all three kinds |
| AgentCandidates.Idempotent | apps/agent_protocol.py:196-241 | normalisation is idempotent |
| AgentCandidates.DecodesItsOwnRecords | apps/agent_protocol.py:244-262 | `decode_candidate` accepts exactly the records `candidate_record` makes, up to that order, and returns them in normal order |
| AgentCandidates.IdentityFixesArtifact | apps/agent_protocol.py:244-249 | identities are equal exactly when the artifacts are, or when the texts hashed for these two differ and have one digest |
| AgentCandidates.UnchangedIffSame | apps/agent_protocol.py:273-289 | no path changed exactly when the artifacts are equal |
| AgentCandidates.ChangedPathsAre | apps/agent_protocol.py:273-289 | exactly the paths at which one artifact has a file that the other does not have as it is, ascending; for Git candidates the one mark, when they differ at all |
| AgentCandidates.SameIdIffUnchanged | apps/agent_protocol.py:273-289 | two candidates have equal ids exactly when `changed_artifact_paths` is empty, or the texts hashed for these two differ and have one digest |
| Reports.ValidatedReportCases | apps/controller/contract.py:59-144 | it accepts exactly the reports about this candidate and evaluation that follow the tasks case by case and whose summary counts their own cases |
| Reports.HeldReportCounts | apps/controller/contract.py:59-144 | the summary of an accepted report counts its cases, those that passed and those that were unsafe, each under its own name |
| Reports.Measure | apps/forecast_assay/agent_assay.py:28-135 | the assay loop accepts exactly assayable requests and returns the report of their verdicts and forecast probabilities |
| Reports.MeasuredReportsHold | apps/forecast_assay/agent_assay.py:28-135 | every report it builds from cases in task order is accepted when reread |
| Reports.AssayableIff | apps/forecast_assay/agent_assay.py:28-135 | a request is assayable exactly when there are cases, no two share a name, and in each the forecast gives distinct outcomes a probability, the observed one included, and the verdict is on this candidate |
| Reports.SelectTaskReports | apps/selection_gate/task_selection.py:259-341 | the gate answers exactly for two valid reports on one evaluation about different candidates and the same cases, and then selects the challenger exactly when there is no refused safety regression and enough more cases passed |
| Reports.GateAnswersIff | apps/selection_gate/task_selection.py:259-341 | the reports that can be compared, said case by case: distinct well-formed cases, probabilities from 0 to 1, summaries that count them, and each report covering the other |
| Reports.SelectionSays | apps/selection_gate/task_selection.py:290-341 | a selection names both reports, carries their counts each in its place, gives the right one of three reasons and selects accordingly |
| Receipt.MatchesIffAgrees | apps/controller/contract.py:347-370 | comparing canonical texts and filtering the forecast decides exactly that the report case repeats the verdict and carries the run's one forecast for it |
| Receipt.TraceMatches | apps/controller/contract.py:274-370 | one trace is accepted exactly when its tasks, candidates, adapters and evaluation are bound and both report cases agree with it |
| Receipt.ValidateReceipt | apps/controller/contract.py:147-390 | a receipt is accepted exactly when identities, selection, both reports and all traces hold together, and the evidence returned is that of the reports |
| ReceiptReplay.AcceptedRequest | apps/controller/contract.py:147-239 | an accepted receipt answers a request with tasks, two commands and a named evaluation, for that evaluation |
| ReceiptReplay.AcceptedCandidates | apps/controller/contract.py:147-239 | the candidates of an accepted receipt are the requested parent, another child, and as next parent the one the reports promote |
| ReceiptReplay.AcceptedTraceIs | apps/controller/contract.py:285-370 | in every trace of an accepted receipt the incumbent run is the parent's and the challenger run the child's, all three tasks are the requested one, the adapters and the evaluator are the requested commands', and each of the two verdicts is repeated by its own candidate's report case with the probability that run forecast |
| ReceiptReplay.AcceptedReportsFollowTraces | apps/controller/contract.py:250-370 | in an accepted receipt every report case follows its trace and both summaries count the traced verdicts |
| ReceiptReplay.TracesDecideNextParent | apps/controller/contract.py:221-239 | the evaluator's verdicts in the traces, and the policy, decide the next parent of an accepted receipt |
| ReceiptReplay.HonestGenerationAccepted | apps/controller/contract.py:147-390 | a generation whose reports were assayed from its own traces and whose next parent is the gate's is accepted |
| ReceiptHonest.MadeGenerationAccepted | apps/controller/contract.py:147-390 | from any two different normal artifacts, well-formed tasks, and forecasts and verdicts on them, the receipt put together from their records, traces, measured reports and selection is accepted |

## Left out

- JSON floats, `strict_json_float`, and the interpreter's own limits on nesting depth and integer digits.
- Texts of error messages; faults that the code tells apart only by text share one constructor.
- UTF-8 decoding of state files, symbolic links, file permissions and fsync; a file is the text it decodes to.
- GitInventory.Inventory: does not model `cat-file --batch-check` blob sizes and time bounds.
- Display paths, blob sizes, content pages and rename inference of `file_view.py`.
- Subprocess launch, process groups, signals and container commands; closing and reaping in the bounded transport.
- Wall clocks: deadlines are an early stop chosen from outside.
- Evolver.Evolve: takes it as given that digests are hexadecimal, that a request's strings are encodable, and that a
  Controller answer accepted by the receipt check yields feedback and an encodable next parent; the directory lock
  around it is not part of this model.
- Population policy: which candidates an archive retains, dominance, novelty and budgets; an archive's members are any
  registered candidates, and task rate and reliability are numbers that are compared, never computed.
- Population.Store.Append: record identities are positions, experiment and run identities are given names rather than
  digests, and a ledger that does not load is not part of this model.
- FinalAssayRuns.OneUse: while the archive is fixed, other writers add no development archive, no allocation and
  nothing final; whether protected cases yield acceptable evidence is an outside verdict.
- Protected task files, receipt bundles as files, and costs of the final assay.
- Workflow status files, logs, provider configuration and the stop command, which only kills a worker; pending
  retry intents are an outside verdict on a launch.
- Kernel stderr, container inspection and resource figures; an observation is counted, not read.
- Key sets, schema numbers and most field types of reports, traces and kernel results: documents arrive decoded, and
  `WellFormed` predicates or a `Malformed` value stand for the decoders' demands.
- Forecast entropy, surprisal and mean surprisal, which are floating point, and the evidence digest of a selection that
  contains them; probabilities are exact reals and `measured` is an outside verdict.
- The loop of `_decode_git_artifact` over outputs, which has the same shape as the `files` loop: outputs are normalised by
  a function.
- Typed recombination, harness workspaces, task sources, the viewer and its projections.
