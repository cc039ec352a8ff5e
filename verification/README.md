# Kanonarion command-line logic: a Dafny model

Kanonarion keeps an evidence store about Go modules: fetched sources, call graphs,
vulnerability scans, licence determinations, and an append-only audit log. This
project models the part of its command line where an answer is decided, and proves
what those answers rest on:

- **the configuration-hash protocol** (`ConfigHash.dfy`, `LedgerScan.dfy`): what a
  gate-evaluating command and `config set` append to the audit log, what the backend
  remembers of the last hash, and what survives when any call fails or the process
  dies between two of them, over every run; then the SQLite backend's marker file and
  its backwards, chunked log scan, which keep that ledger's contract over every run in
  which what is written reads back as its event or as nothing, and whose marker agrees
  with the log over any run, lines left broken off included, until a step spoils them;
- **the YAML editor behind `config set`** (`YamlTree.dfy`, `YamlNode.dfy`,
  `ConfigSet.dfy`): the lens laws on values, the same editor over heap nodes written in
  place, and the command around it;
- **the verdict on an empty `callers`/`callees` answer** (`CallGraphStore.dfy`,
  `NegativeAnswer.dfy`, `EdgeQuery.dfy`, `EdgeAnswers.dfy`): scope check, module
  resolution, partial graphs, the fold over records, the classification, and the whole
  flow; then what it says, over the store and the question alone;
- **the dependents query** (`Dependents.dfy`), **the per-batch vulnerability caches and
  the run a record is shown beside** (`VulnCache.dfy`, `RunContext.dfy`), **the
  generation ladder** (`Generations.dfy`), **the node filter** (`NodeFilter.dfy`) and
  **the foreign-module draw** (`ForeignDraw.dfy`);
- **three small state machines**: the throttled progress writer (`Throttle.dfy`), the
  declared build frame (`BuildFrame.dfy`) and audit's exit (`AuditExit.dfy`).

`Wrappers.dfy`, `Seqs.dfy`, `Order.dfy` and `Coordinates.dfy` hold what these share.
Code that updates state is a class or a method with loops, proved against a function of
its inputs; the theorems are about those functions and about whole runs. Clocks, file
and store reads, the toolchain and the working of external commands are parameters.

`dafny verify dfyconfig.toml` checks everything.

## What the proofs found

Each of these is a theorem about the code as it is, with the exact condition.

- A negative verdict can be printed over a module other than the one everything stored
  resolves the symbol to, when the symbol's package was dropped and a module nested in
  the served one is stored only under superseded logic (`StagesCanDisagree`,
  `DroppedStagesAgreeIff`). In every other case all stages agree (`StagesAgree`).
- The completeness kept for a verdict is that of the last record holding the symbol, not
  the weakest, although the comment on the merge speaks of the weakest seen
  (`LevelIsTheLastHolders`, `LevelIsWeakestIff`); RESOLVED-ABSENT can be printed over a
  record below full fidelity (`WeakerHolderIsPassedOver`).
- An audit line left broken off by a failed write or a death is glued to the next one.
  The marker and the log agree throughout a run exactly when no step spoils them
  (`RunAgreesIff`), and an evaluated gate is in the log exactly when it does not
  (`GateIsLoggedIff`). Two steps do: a recording whose glued line no longer reads as its
  hash, after which the gate is remembered and not logged (`TornLineHidesTheNextGate`);
  and a later append of any event to a line whose newline never came, which takes an
  evaluated gate's hash out of the log (`AnotherEventErasesTheHash`).
- `config set` over a file whose root is not a mapping writes nothing and reports success
  (`ReadBack`).
- A "not recorded" notice is untrue exactly when a change was to be recorded and its
  append failed after the line had reached the log (`NoticeTellsTheTruth`,
  `NoticeCanBeUntrue`). Its promise that the next gate will record drift is kept exactly
  when that append did not land and the log did not already end with the new hash
  (`NoticeIsFollowedByDriftIff`, `NoticeCanPromiseInVain`).
- A marker beside a replaced audit log is read right exactly while it is blank, the log is
  shorter than it says, or the log records its hash (`MarkerIsRightIff`,
  `ReplacedLogCanOutgrowItsMarker`).
- The default comparison of generations holds the newest one's measurement on the right
  exactly when none was first seen after it, and leaves it out altogether exactly when
  two were, one after the other (`DefaultIsNewestIff`, `NewestIsLeftOutIff`,
  `NewestCanBeLeftOut`).
- `config set` keeps every attributed licence override it walks to; one the loader
  reaches through an alias is dropped by a write exactly when the overrides section is
  that alias, or the entry written over is (`AttributedOverridesSurvive`,
  `SeenOverrideSurvivesIff`).
- The foreign-module cache is looked up before its coordinate is checked: one that names
  no module is served another record's answer, instead of a refusal, exactly when its key
  is already cached (`CachedReadDiffersIff`, `MeetingKeyIsServed`).
- A bare path's dependents miss edges into a node held at no version, or at one that is
  not semver (`BarePathCoverage`).
- A scan run is credited with a record by walk, coverage and snapshot. It is due exactly
  when the run the record came out of is the newest to judge the module on that snapshot
  (`CreditIsDueIff`, `NewerRunTakesTheCredit`). A run chosen by an anchored read always
  scanned the record it serves.
- Of nested foreign modules the outer one is named, though the owning comment calls the
  prefix test exact: the innermost is named exactly when all owners share one path
  (`InnermostIsNamedIff`, `NestedModuleIsPassedOver`).
- A read refused for declaring a target beside `--walk-id` leaves an earlier declaration
  in force (`ForgetsIff`, `EarlierDeclarationStands`), and the build-list resolver and
  scanner keep the declaration they were opened under (`OrderOfOpening`).
- Audit's exit keeps its stated precedence except where a marked row suppresses the
  scan's failure and no row carries one (`PrecedenceIff`); rows as the run builds them
  never do (`AuditExitCode`).
- Node filters absorb one another exactly when the second pattern contains the first
  (`AbsorptionIff`).

## Model

| member | source | states |
|---|---|---|
| ConfigHash.Backend.LastConfigHash | internal/config/ports/ports.go:25-27 | Reading the last hash: a sure memory answers; an unsure one re-reads the log, perhaps re-seating itself, or finds nothing; a failed read changes nothing. |
| ConfigHash.Backend.BeforeConfigHashAppend | internal/config/ports/ports.go:28-29 | The call makes the backend unsure when it takes effect; one that fails or dies may have taken effect or changed nothing. |
| ConfigHash.Backend.RecordEvent | internal/cli/confighash.go:64-80 | The event is in the log once the append succeeds; one that fails or dies has put it there or has not. A line left in part is the file model's (LedgerScan). |
| ConfigHash.Backend.AfterConfigHashAppend | internal/config/ports/ports.go:30-31 | The call makes the backend sure of the hash when it takes effect; one that fails or dies may have taken effect or changed nothing. |
| ConfigHash.Backend.RecordConfigHash | internal/cli/confighash.go:64-80 | Before, append, after, in that order, each skipped once one fails; the report tells a hash that was not recorded from one recorded and not remembered. |
| ConfigHash.Backend.ObserveGateConfig | internal/cli/confighash.go:26-59 | The gate's observation: quiet on a remembered match, one drift event with the true previous hash otherwise, refused when the recording fails. |
| ConfigHash.Backend.RecordConfigChange | internal/cli/confighash.go:147-209 | The whole result of recording a `config set`, including a configuration that no longer loads and a store that does not open. |
| ConfigHash.Backend.RecordConfigOverrides | internal/cli/confighash.go:95-109 | One event per override in order, stopping at the first that fails. |
| ConfigHash.RecordKeepsTheLogAndMemoryTogether | internal/cli/confighash.go:61-80 | Whatever fails or dies, a sure memory agrees with the log, and the log is untouched or extended by exactly the event. |
| ConfigHash.RecordingEnds | internal/cli/confighash.go:64-80 | Which of the four ends a recording comes to, and whether its event is in the log, from how its calls go. |
| ConfigHash.GateRecordsTheDrift | internal/cli/confighash.go:26-59 | On any backend with a memory: quiet when the hash told is the configuration's; otherwise one drift event from the hash told, empty where none was, to the configuration's, observed at first use. |
| ConfigHash.DriftNamesWhatItReplaces | internal/cli/confighash.go:35-52 | Where the memory agrees with its log and the read re-scans, a gate appends exactly when the log's last hash is not the configuration's and its calls get so far, and the event names that last hash as the one replaced, empty only where there was none. |
| ConfigHash.GateRefuses | internal/cli/confighash.go:26-59 | A gate that cannot hash or read refuses with nothing attempted and nothing changed; one whose recording fails says how. |
| ConfigHash.EvaluatedGateIsLogged | internal/cli/confighash.go:26-59 | A gate is evaluated only under a hash the log's last hash-setting event carries; a quiet gate appends nothing. |
| ConfigHash.NoticeTellsTheTruth | internal/cli/confighash.go:147-209 | `config set` tells the truth about the log unless the change is one to record, the store opens, and the append fails after its line has reached the log; then it does not. |
| ConfigHash.NoticeCanBeUntrue | internal/cli/confighash.go:185-209 | Such a change is in the log and reported as not recorded. |
| ConfigHash.ChangeIsRecordedAs | internal/cli/confighash.go:166-185 | The event names the key, the hash replaced, empty where the old file was refused, and the new one; it is there exactly when the change is one, the store opens and the append lands. |
| ConfigHash.ReportIs | internal/cli/confighash.go:147-209 | Each report from the two configurations and how the calls go. |
| ConfigHash.NoticeIsFollowedByDriftIff | internal/cli/confighash.go:141-186 | After a notice that a change was not recorded, the next gate records it as drift exactly when the log did not already end with the new hash and the append did not fail late; otherwise the gate is quiet. |
| ConfigHash.NoticeCanPromiseInVain | internal/cli/confighash.go:141-186 | The file is edited by hand and set back to the recorded configuration while the before-call fails: the promised drift is never recorded. |
| ConfigHash.OverridesKeepTheHash | internal/cli/confighash.go:95-109 | Overrides never disturb the recorded hash, the memory, or the count of repeated drift. |
| ConfigHash.OverridesReachTheLog | internal/cli/confighash.go:95-109 | Every override up to the first failure is in the log, in order, with its flag, its value and the hash it overrode, and the failed one where its line landed; the call succeeds exactly when all are. |
| ConfigHash.SecondGateIsQuiet | internal/cli/confighash.go:35-52 | After a recorded gate the next gate under the same configuration records nothing. |
| ConfigHash.WithoutMemoryEveryGateRecords | internal/cli/confighash.go:35-59 | A backend with no memory records at every gate, with no previous hash, and only then evaluates. |
| ConfigHash.EveryRun | internal/cli/confighash.go:26-209 | Over every run of gates, sets, edits, overrides, failures and deaths on a backend with a memory: besides that, repeats are bounded by failed or interrupted recordings. |
| ConfigHash.EveryRunKeeps | internal/cli/confighash.go:26-209 | Over every run, on a backend with a memory or without: a memory is never wrong, and no drift event misstates the hash it replaced. |
| ConfigHash.EveryGateOfEveryRunIsLogged | internal/cli/confighash.go:26-59 | At every point of every run, on every backend, an evaluated gate's hash is the configuration then in force and the log's last. |
| ConfigHash.RepeatedDriftIsPaidFor | internal/cli/confighash.go:26-80 | From an empty store, drift events repeating the log's last hash are at most the failed or interrupted recordings. |
| ConfigHash.RepeatBoundIsTight | internal/cli/confighash.go:26-80 | For every n a run meets that bound with n failures and n repeats. |
| LedgerScan.LastConfigHashInLog | internal/adapters/factstore/sqlite/configledger.go:107-141 | The backwards chunked scan answers what reading every line from the front answers, for any chunk size and any bytes. |
| LedgerScan.CutHeldLine | internal/adapters/factstore/sqlite/configledger.go:122-138 | A line cut by a chunk boundary and carried back is read whole: taking the last line off the held tail keeps the answer. |
| LedgerScan.AppendedLineIsReadBack | internal/adapters/factstore/sqlite/audit.go:185-207 | A line appended after a torn write is glued to its fragment; it reads back as itself exactly when the two parse together. |
| LedgerScan.ConfigHashMarker.LastConfigHash | internal/adapters/factstore/sqlite/configledger.go:45-67 | A marker that speaks answers, else the log is read and the marker re-seated; where the marker agrees with the log the answer is what the log records and it still agrees. |
| LedgerScan.ConfigHashMarker.WriteMarker | internal/adapters/factstore/sqlite/configledger.go:80-93 | The marker holds the hash and the log's size, or nothing changed and the failure is reported. |
| LedgerScan.ConfigHashMarker.BeforeConfigHashAppend | internal/adapters/factstore/sqlite/configledger.go:69-75 | The marker is gone when the removal takes effect, and is as it was otherwise. |
| LedgerScan.ConfigHashMarker.AppendLine | internal/adapters/factstore/sqlite/audit.go:185-207 | The line, or any part of it, is written behind whatever the log ends with; a write that succeeds is whole. |
| LedgerScan.ConfigHashMarker.AfterConfigHashAppend | internal/adapters/factstore/sqlite/configledger.go:77-93 | The marker is written with the hash and the log's size, whatever the log then reads as. |
| LedgerScan.ConfigHashMarker.RecordConfigHash | internal/cli/confighash.go:64-80 | The three calls on the files, each ending as it may. |
| LedgerScan.GateWrites | internal/cli/confighash.go:26-59 | Where marker and log agree, a gate writes the line of one drift event from the log's last hash to the configuration's, whole or as much of it as was reached, and nothing when they are equal. |
| LedgerScan.SetWrites | internal/cli/confighash.go:166-209 | A `config set` writes the line of its one change, whole or in part, and nothing where there is none to record. |
| LedgerScan.ReadKeepsTheContract | internal/adapters/factstore/sqlite/configledger.go:45-67 | The file read does what the ledger's contract allows a read. |
| LedgerScan.BeforeKeepsTheContract | internal/adapters/factstore/sqlite/configledger.go:69-75 | Removing the marker, done, failed or died in, does what the contract allows the before-call. |
| LedgerScan.AppendKeepsTheContract | internal/adapters/factstore/sqlite/audit.go:167-207 | Writing an event's line in whole or in part behind whatever the log ends with, succeeding, failing or dying, is the event appended or not, where the log then reads as one of the two. |
| LedgerScan.AppendMayStandIff | internal/adapters/factstore/sqlite/audit.go:185-207 | Some end the contract allows the append stands for what was written exactly where the log reads so; otherwise none does. |
| LedgerScan.WholeLinesReadRight | internal/adapters/factstore/sqlite/audit.go:185-207 | Behind whole lines every write of an event's own line, in whole or in part, reads so. |
| LedgerScan.FragmentIsClosed | internal/adapters/factstore/sqlite/audit.go:185-207 | So does a line that sets no hash behind a fragment it does not complete, and the log ends in a whole line again. |
| LedgerScan.AfterKeepsTheContract | internal/adapters/factstore/sqlite/configledger.go:77-93 | Writing the marker, done, failed or died in, does what the contract allows the after-call, once the log reads as the hash. |
| LedgerScan.RecordKeepsTheContract | internal/cli/confighash.go:64-80 | So does a whole recording behind anything, wherever it fails or dies, with the same report, where its line reads so. |
| LedgerScan.FileRunsKeepTheContract | internal/cli/confighash.go:26-209 | Over every run in which what is written reads back as its event or as nothing, behind whatever it is written, the files stand step by step for a run of the abstract store, whatever fails, dies or breaks off. |
| LedgerScan.StepAgreesIff | internal/adapters/factstore/sqlite/configledger.go:45-93 | From a marker and a log that agree, any gate, set, append or edit, however its calls end, leaves them agreeing exactly unless it spoils them: a marker written over a line that does not read as its hash where it stands, or an append that changes what the log reads as beside a marker that speaks. |
| LedgerScan.RunAgreesIff | internal/cli/confighash.go:26-209 | Over every run, torn writes and what follows them included, marker and log agree at every point exactly when no step spoils them. |
| LedgerScan.GateIsLoggedIff | internal/cli/confighash.go:26-59 | Where they agree, an evaluated gate's hash is the configuration in force, and a read of the whole log finds it exactly unless the gate spoils them. |
| LedgerScan.EveryUnspoiledGateIsLogged | internal/cli/confighash.go:26-59 | The same at any point of every run no earlier step of which spoiled them. |
| LedgerScan.WholeLinesRunsAreRight | internal/cli/confighash.go:26-209 | Over a run on whole lines, each event written as its line, every write reads right and no step spoils. |
| LedgerScan.EncodedEventsAreLines | internal/adapters/factstore/sqlite/configledger.go:107-141 | There is a writer and a parser as these theorems ask: lines free of newlines, read back as their event, no proper part of which parses. |
| LedgerScan.RecordedBehindAnything | internal/adapters/factstore/sqlite/configledger.go:45-93 | Recording behind any log: the marker then answers the hash, and agrees with the log exactly when the line, glued to the fragment it was written behind, still reads as it. |
| LedgerScan.RecordedGateIsLoggedIff | internal/cli/confighash.go:26-59 | A gate recorded behind any log is logged exactly then; logged or not, the next gate is quiet. |
| LedgerScan.TornLineHidesTheNextGate | internal/adapters/factstore/sqlite/audit.go:185-207 | A gate dies with one byte written; the next gate is evaluated and remembered, and no read of the log finds it. |
| LedgerScan.AnotherEventErasesTheHash | internal/adapters/factstore/sqlite/audit.go:185-207 | A gate dies with only its newline missing; the next gate finds the hash, re-seats the marker and is quiet; one whole append of an event that sets no hash is glued on, and the gate after it is quiet over a log that no longer holds the hash. |
| LedgerScan.MarkerIsRightIff | internal/adapters/factstore/sqlite/configledger.go:45-67 | With any marker beside any log, the read answers what the log records exactly when the marker is blank, the log is shorter than the marker says, or the log does record the marker's hash. |
| LedgerScan.ReplacedLogCanOutgrowItsMarker | internal/adapters/factstore/sqlite/configledger.go:53-57 | A log replaced by an empty one is read right, and once it has grown back by a line that sets no hash the read answers a hash it never held. |
| YamlTree.LookupSetIn | internal/cli/config.go:534-556 | Read after write at every path: the value below it, the rewritten node above it, and everywhere else what was there, also across an upgraded scalar. |
| YamlTree.ReadBack | internal/cli/config.go:626-637 | The written value is read back exactly when the root is a mapping; over any other root the write changes nothing. |
| YamlTree.LastWriteWins | internal/cli/config.go:634-668 | A second write at a path equals writing only the last value. |
| YamlTree.WriteBack | internal/cli/config.go:534-556 | Writing back the value just read changes nothing. |
| YamlTree.SetInParsed | internal/cli/config.go:634-668 | A write keeps mappings in whole pairs throughout the tree. |
| YamlTree.GetSetEntry | internal/cli/config.go:639-667 | Setting one key of a mapping is read at that key and at no other. |
| YamlTree.SetEntryLeaves | internal/cli/config.go:639-667 | The other pairs stay in place, the first of a duplicated key is the one written, and a new key goes last under a plain string node. |
| YamlTree.SectionIsUpgraded | internal/cli/config.go:645-667 | A section missing or no mapping becomes a mapping of the one entry under the comment that stood over it. |
| YamlNodes.YamlNode.SetInMapping | internal/cli/config.go:634-668 | The in-place write over heap nodes leaves exactly the tree the value-level write gives, keeps nodes unshared, and touches no node outside the document. |
| YamlNodes.YamlNode.LookupYamlNode | internal/cli/config.go:534-556 | The walk returns the node of this document that the path names, or nothing exactly when it names none. |
| YamlNodes.YamlNode.SetYamlNode | internal/cli/config.go:626-632 | The document write replaces the root by the written tree, and refuses a document without a root. |
| ConfigSet.RunConfigSet | internal/cli/config.go:412-450 | The checks in order, the refusal each gives, and the document left in place; a refused set leaves it untouched. |
| ConfigSet.PathsAreKeys | internal/cli/config.go:559-596 | A settable key's path determines the key. |
| ConfigSet.KeysAreApart | internal/cli/config.go:559-596 | Of two settable keys neither names a node above the other's. |
| ConfigSet.SettableKeys | internal/cli/config.go:559-596 | Which keys can be set, as typed, and where each is kept: the eleven listed, a licence category of any name, the override of any module, and no other. |
| ConfigSet.RefusalIs | internal/cli/config.go:412-438 | Which refusal is given, the first of four conditions on the key, the value, the document and the entry; and what an accepted set leaves of the document around its root. |
| ConfigSet.ReadableKeys | internal/cli/config.go:239-272 | The keys that are read and not set, and where each is read. |
| ConfigSet.SettableIsReadable | internal/cli/config.go:239-272 | Every key that can be set is read at the path it is written to. |
| ConfigSet.AcceptedWrite | internal/cli/config.go:412-438 | An accepted set is read back at its key and changes the node of no other settable key. |
| ConfigSet.AttributedOverridesSurvive | internal/cli/config.go:497-509 | No accepted set, whatever its key, removes or alters an attributed licence override of any module that the editor's own walk reaches. |
| ConfigSet.SeenOverrideSurvivesIff | internal/cli/config.go:497-509 | One the loader sees, aliases followed, survives an accepted set exactly unless an override is set while the section is held through an alias, or over an entry that is. |
| ConfigSet.GuardIsExact | internal/cli/config.go:497-509 | The provenance guard refuses exactly a licence-override key whose entry is attributed. |
| CallGraphStore.ListCoordinates | internal/cli/callgraph_resolution.go:63-80 | The listing holds, in order, exactly the coordinates the pipeline filter and the build admit. |
| CallGraphStore.ResolveSymbolModule | internal/callgraph/domain/resolution.go:36-54 | The scan returns the longest listed path that owns the symbol, and reports whether one does. |
| CallGraphStore.LongestOwner | internal/callgraph/domain/resolution.go:27-54 | The owner is listed, owns the symbol, and no listed owner is longer. |
| CallGraphStore.OwnsIff | internal/callgraph/domain/resolution.go:36-54 | A path owns itself and what continues it at a dot or a slash, and nothing that merely begins with it. |
| CallGraphStore.NarrowingKeepsTheOwner | internal/callgraph/domain/resolution.go:27-54 | Narrowing a listing keeps the owner while the owner survives it. |
| NegativeAnswer.MergeNegativeInputs | internal/cli/callgraph_resolution.go:565-589 | One record folded in: its edges and nodes, the symbol and its level, the first below-full level and the scopes. |
| NegativeAnswer.FoldIsWeakest | internal/cli/callgraph_resolution.go:520-589 | After the fold: tests unmeasured by the first record that says so, references by the last, the symbol and its level from the last holder, the fallback from the first below full. |
| NegativeAnswer.FoldMeasures | internal/cli/callgraph_resolution.go:565-589 | An axis is measured exactly when every folded record measured it; the symbol is found exactly when some record holds it. |
| NegativeAnswer.MeasuredIsOrderFree | internal/cli/callgraph_resolution.go:510-563 | The measured bits do not depend on the order records are folded in. |
| NegativeAnswer.LevelIsTheLastHolders | internal/cli/callgraph_resolution.go:565-578 | The level kept is that of the last record holding the symbol. |
| NegativeAnswer.LevelIsWeakestIff | internal/cli/callgraph_resolution.go:565-578 | A record below full fidelity lowers the level kept exactly when the last holder is itself below full; otherwise it does so only where there is no such record. |
| NegativeAnswer.FoldedGraph | internal/cli/callgraph_resolution.go:567-570 | The edges scanned are exactly those of the records folded. |
| NegativeAnswer.FoldedNodes | internal/cli/callgraph_resolution.go:567-573 | A callee is named by a node of a folded record under that id. |
| NegativeAnswer.IndexedNodeIs | internal/cli/callgraph_resolution.go:567-573 | Under an id stands the last node of the last record that holds it. |
| NegativeAnswer.MethodNameIs | internal/callgraph/domain/answer.go:160-169 | The name looked for is what follows the symbol's last dot, or the whole of a symbol without one. |
| NegativeAnswer.InterfaceDispatchSinks | internal/callgraph/domain/answer.go:340-364 | One sink per unresolved call that dispatches on the method's name, in edge order. |
| NegativeAnswer.DedupeSinks | internal/callgraph/domain/answer.go:373-394 | Each sink once, sorted by kind and site. |
| NegativeAnswer.ClassifyNegativeAnswer | internal/callgraph/domain/answer.go:221-285 | The branches of the classification give exactly the canonical sinks of the inputs. |
| NegativeAnswer.EachSinkIff | internal/callgraph/domain/answer.go:221-364 | Each reason, by its own name and at its own place, is in the answer exactly when it applies. |
| NegativeAnswer.HarnessCalls | internal/callgraph/domain/answer.go:410-433 | A test function is an entry by what follows its prefix: nothing for an example alone, otherwise anything but a lower-case letter. |
| NegativeAnswer.HarnessCallsNoOther | internal/callgraph/domain/answer.go:410-433 | No other name is. |
| NegativeAnswer.SinksAreCanonical | internal/callgraph/domain/answer.go:373-394 | An answer's sinks are the one ordered list of what stands against it. |
| NegativeAnswer.AbsentIff | internal/callgraph/domain/answer.go:221-285 | An absence is called proven exactly when nothing stands against it: level, dropped package, leaf, scopes, harness and dispatch. |
| EdgeQuery.CheckSymbolInScope | internal/cli/callgraph_resolution.go:183-247 | Refused exactly when the store holds the module and the build holds it at no analysed version, and which refusal. |
| EdgeQuery.RootPartialStatus | internal/cli/callgraph_resolution.go:363-427 | What is noted of the module's partial records, the first that dropped the symbol's package deciding. |
| EdgeQuery.SymbolIsKnownNode | internal/cli/callgraph_resolution.go:847-874 | Whether a served record holds the symbol, and otherwise whether any was served. |
| EdgeQuery.ClassifyEmptyEdgeResult | internal/cli/callgraph_resolution.go:269-317 | Why an empty result is no answer, or that it is one. |
| EdgeQuery.RootCompletenessCaveat | internal/cli/callgraph_resolution.go:436-483 | The first definite below-full level among the module's served records. |
| EdgeQuery.SkippingIsSound | internal/cli/callgraph_resolution.go:363-483 | Skipping coordinates on their columns changes neither answer, wherever reading everything goes without error. |
| EdgeQuery.NegativeCallAnswer | internal/cli/callgraph_resolution.go:498-563 | The verdict is the classification of the fold over the owner's served records in version order. |
| EdgeQuery.Gather | internal/cli/callgraph_resolution.go:520-561 | The gathering loop folds exactly the records that can be found, and fails on one that cannot be read. |
| EdgeQuery.RunEdgeQuery | internal/cli/callgraph_traverse.go:121-205 | The command as a flow: which check or which read behind a notice refuses, in order, and what is printed when none does. |
| EdgeQuery.VerdictRestsOnARecord | internal/cli/callgraph_resolution.go:498-520 | A printed verdict is over a module that resolves among the served coordinates and rests on a served record that holds the symbol or dropped its package, all that is told of the drop being that record's. |
| EdgeQuery.StagesAgree | internal/cli/callgraph_traverse.go:270-315 | With no package dropped, all stages resolve the symbol to one module. |
| EdgeQuery.DroppedStagesAgreeIff | internal/cli/callgraph_traverse.go:128-143 | With it dropped, the stages agree exactly when the module stored is served. |
| EdgeQuery.StagesCanDisagree | internal/cli/callgraph_traverse.go:128-143 | A family of stores over which a verdict is printed on another module than the stored owner. |
| EdgeQuery.PrintedAbsentIff | internal/cli/callgraph_traverse.go:121-166 | RESOLVED-ABSENT is printed exactly when no package was dropped, every consulted record measured references, and tests unless excluded, the last holder is not below full and hides nothing, and no consulted call may have missed it. |
| EdgeQuery.VerdictIsReached | internal/cli/callgraph_traverse.go:121-166 | An empty result is answered whenever the symbol passes the scope check, resolves to one module over what is stored and served, and that module's records read, drop nothing of it, and hold it. |
| EdgeQuery.MeasuredAbsenceIsPrinted | internal/cli/callgraph_traverse.go:121-166 | A measured absence is printed as one: for any listing and any build, where the symbol resolves alike over what is stored and served, every served record of its module reads and measures it whole, and, for callers, no unresolved call in one is of a node another holds by the symbol's name, an empty result is RESOLVED-ABSENT. |
| EdgeQuery.WeakerHolderIsPassedOver | internal/cli/callgraph_resolution.go:510-578 | Over two versions holding the symbol, the earlier below full and the later whole, RESOLVED-ABSENT is printed. |
| EdgeAnswers.AnswerSays | internal/cli/callgraph_resolution.go:498-563 | A printed verdict names exactly the reasons that stand against the absence in the records consulted, each at its place, and is RESOLVED-ABSENT exactly when none does. |
| EdgeAnswers.DispatchIsReported | internal/callgraph/domain/answer.go:330-364 | A caller query over a consulted record with an unresolved call of a node by the symbol's own name is UNRESOLVED, and names the call's place. |
| EdgeAnswers.SinksInOrder | internal/callgraph/domain/answer.go:386-394 | The reasons stand by kind and then by place, each once. |
| EdgeAnswers.ConsultedIff | internal/cli/callgraph_resolution.go:506-561 | The records consulted are those served, for the toolchain asked for, at the versions of the module the symbol resolves to. |
| EdgeAnswers.OwningInOrder | internal/cli/callgraph_resolution.go:513-519 | They are taken in the order of their versions as strings. |
| EdgeAnswers.ScopeRefusalIff | internal/cli/callgraph_resolution.go:183-247 | Which scope refusal is given: the build holds the symbol's module at no analysed version, and names it or does not. |
| EdgeAnswers.RefusalSays | internal/cli/callgraph_resolution.go:269-317 | Where everything can be read, each refusal of an empty result by its own condition on the store, and an answer exactly where a served record holds the symbol. |
| EdgeAnswers.ReadFailedIff | internal/cli/callgraph_resolution.go:269-317 | A listing that fails refuses; so, where the module is listed, does a record that cannot be read unless one before it holds the symbol, and nothing else does. |
| EdgeAnswers.StatusFailsIff | internal/cli/callgraph_resolution.go:363-400 | The partial status fails exactly where the listing does, or a record that may be partial cannot be read. |
| EdgeAnswers.VerdictFailsIff | internal/cli/callgraph_resolution.go:498-548 | No verdict is given exactly where the listing fails or any record of the module cannot be read. |
| EdgeAnswers.CaveatFailsIff | internal/cli/callgraph_resolution.go:436-483 | The notice fails where a record cannot be read and none before it answers; generations that disagree are passed over. |
| EdgeAnswers.PartialStatusSays | internal/cli/callgraph_resolution.go:363-427 | Whether the module's graph is partial, every package it failed on, whether the symbol's own was dropped, and why packages could not be read. |
| EdgeAnswers.FirstFailedPackage | internal/callgraph/domain/resolution.go:61-71 | Of the failed packages the symbol's name continues at a dot, the first listed is told. |
| EdgeAnswers.CaveatSays | internal/cli/callgraph_resolution.go:436-483 | The notice gives the first level below full fidelity, and none exactly where there is none. |
| EdgeAnswers.OutcomeSays | internal/cli/callgraph_traverse.go:121-205 | Which outcome a command comes to, from what its stages find, with the rows it was given printed as they are. |
| Dependents.WalkDependents | internal/cli/dependents.go:380-416 | Exactly the sources of edges into one target, once each, annotated and in order, the root as asked. |
| Dependents.WalkDependentsOver | internal/cli/dependents.go:317-342 | The same over any target list, with whether the root depends on a target. |
| Dependents.OrderOfRecordDoesNotMatter | internal/cli/dependents.go:380-431 | Permuting edges, nodes or targets changes nothing in the list. |
| Dependents.IncludingTheRoot | internal/cli/dependents.go:396-412 | Asking for the root adds its row first, exactly when it depends on a target, and nothing else. |
| Dependents.KeepDirect | internal/cli/dependents.go:262-275 | The in-place compaction leaves exactly the rows shown, in order. |
| Dependents.NarrowedIsSorted | internal/cli/dependents.go:262-275 | The narrowed list is in order and holds exactly the rows shown. |
| Dependents.GraphVersionsOf | internal/cli/dependents_root.go:333-352 | The distinct versions of a path the graph holds, ordered. |
| Dependents.DependentsTargets | internal/cli/dependents.go:216-232 | The coordinate itself, or every constructible version of a bare path. |
| Dependents.BarePathCoverage | internal/cli/dependents.go:216-232 | A bare path covers an edge into it exactly when a coordinate can be built at its end. |
| Dependents.DependentsWith | internal/cli/dependents.go:253-280 | The whole query over the fields of its rows: the sources of edges into a target, whether each is a direct dependency and the root, the root first, then by path and by version, and the scope searched. |
| Dependents.RowsStandInOrder | internal/cli/dependents.go:418-431 | Of an answer's rows the root's stands first, then the lesser path, and of one path the lesser version. |
| Order.StrLessIff | internal/cli/dependents.go:418-431 | One string is less than another by the first place they differ, or by ending there. |
| VulnCache.VulnBatch.FrameFor | internal/cli/context_vuln.go:73-88 | The frame served is the one a fresh read gives; only this walk's entry is filled. |
| VulnCache.VulnBatch.GraphFor | internal/cli/context_vuln.go:143-161 | The graph served, or its absence, is what a fresh read gives. |
| VulnCache.VulnBatch.AffectedFor | internal/cli/context_vuln.go:163-216 | The affected set served is the uncached one; a failed read leaves the cache as it was. |
| VulnCache.AffectedSetForRun | internal/cli/context_walk.go:303-336 | The second implementation: the affected modules of a run, in any order of its map. |
| VulnCache.VulnBatch.BuildAffectedSetForWalk | internal/cli/context_walk.go:278-301 | For a walk whose runs the batch holds it is the set the cache serves; otherwise the newest listed run's. |
| VulnCache.VulnBatch.FilterWalkAnnotation | internal/cli/context_vuln.go:232-265 | The annotation is the sorted affected peers in the module's closure, itself apart; none without a graph, uncertain on a fault. |
| VulnCache.AnnotationIsUnique | internal/cli/context_vuln.go:254-264 | That annotation is one value, whatever order the maps iterate in. |
| VulnCache.AnnotationSays | internal/cli/context_vuln.go:232-265 | Over the stores themselves: none for a run not affected or without a graph, uncertain exactly where a module of the newest run could not be read, otherwise in order the labels of the other modules found affected in its frame that the graph reaches from this one. |
| VulnCache.AffectedSays | internal/cli/context_vuln.go:163-216 | The affected modules and the generations set aside, from the readings in the frame of the newest run's walk. |
| VulnCache.Serve | internal/cli/context_vuln.go:73-216 | Over any sequence of calls every answer is the uncached one. |
| RunContext.RecordsTheRunScanned | internal/cli/context_vuln.go:496-514 | Exactly the records on the run's snapshot that it named, or all on it when it named none. |
| RunContext.ScannedIff | internal/cli/context_vuln.go:496-514 | A run scanned a record on its own source and version: the one it named by hash, or any where it named none. |
| RunContext.AnchoredVulnerabilities | internal/cli/context_vuln.go:334-366 | An anchored section is the choice among what the newest run that covers the module and offers anything scanned, and its failure if that fails; only where no run offers anything is it the whole ledger's choice. |
| RunContext.RunThatProduced | internal/cli/context_vuln.go:424-438 | The newest run of the record's own walk that covers the module on its snapshot. |
| RunContext.CreditIsDueIff | internal/cli/context_vuln.go:416-438 | A record is credited to a run that scanned it exactly when its walk is loaded and the run it came out of is the newest there to judge the module on its snapshot. |
| RunContext.NewerRunTakesTheCredit | internal/cli/context_vuln.go:416-438 | A walk scanned twice on one database credits the newer run with the older's record. |
| RunContext.ScannedIsCredited | internal/cli/context_vuln.go:424-438 | A record scanned in a walk of the window is always credited to some run. |
| Generations.GroupBy | internal/cli/callgraph_diff.go:299-314 | The map-and-order loop gives, for each digest where it first appears, all its generations in append order. |
| Generations.GroupsPartition | internal/cli/callgraph_diff.go:293-314 | Grouping is a stable partition: non-empty, uniform, distinct, in first-appearance order, and a permutation of the input. |
| Generations.Representatives | internal/cli/callgraph_diff.go:284-291 | The first generation of each group. |
| Generations.SameDistinctGraphs | internal/cli/callgraph_diff.go:44-48 | One generation per measurement shows the same distinct graphs, in the same order, when equal measurements mean equal graphs. |
| Generations.ResolveGeneration | internal/cli/callgraph_diff.go:220-276 | The scan with its early return gives the named rung, or refuses listing what matched. |
| Generations.ResolvesIff | internal/cli/callgraph_diff.go:220-261 | A value resolves exactly when it is a whole hash or begins exactly one; a whole hash beats any ambiguity. |
| Generations.RefusalOffers | internal/cli/callgraph_diff.go:220-276 | A value that names none is refused with every recorded hash it begins, each once. |
| Generations.FirstWithIs | internal/cli/callgraph_diff.go:236-245 | Of the generations of one hash the first on the ladder is named. |
| Generations.NamedGroupHolds | internal/cli/callgraph_diff.go:246-258 | The group returned holds the generation returned. |
| Generations.LongerPrefixesAgree | internal/cli/callgraph_diff.go:246-261 | Once a prefix resolves, every longer prefix of that hash resolves to the same generation and group. |
| Generations.RefusedIff | internal/cli/callgraph_diff.go:22-70 | An empty ledger is refused as holding no record; then exactly an argument that names no one generation; one measurement is nothing to compare, two or more are compared. |
| Generations.BadHashOffers | internal/cli/callgraph_diff.go:132-150 | The left argument is refused before the right, with the recorded hashes it begins. |
| Generations.NamedSides | internal/cli/callgraph_diff.go:136-164 | A named side is a recorded generation its argument begins, and the whole hash where there is one. |
| Generations.UnnamedSideIsBeside | internal/cli/callgraph_diff.go:165-205 | An unnamed side opens a measurement next to the other's, the older on the left save where the basis says the ladder ended. |
| Generations.NeighbourIs | internal/cli/callgraph_diff.go:189-205 | Beside a named left side stands the measurement first seen next after it, and only at the end of the ladder the one before; beside a named right side the other way about; and the basis says which. |
| Generations.DefaultEndsTheLadder | internal/cli/callgraph_diff.go:170-187 | With nothing named the sides open the two measurements first seen last. |
| Generations.DefaultBasis | internal/cli/callgraph_diff.go:170-187 | A ladder of two says nothing of its choice; a longer one says the two are the most recent. |
| Generations.DefaultIsNewestIff | internal/cli/callgraph_diff.go:113-131 | The right side is the newest generation's measurement exactly when no measurement was first seen after it. |
| Generations.NewestIsLeftOutIff | internal/cli/callgraph_diff.go:113-131 | The newest generation's measurement is on neither side exactly when two measurements were first seen after it, one after the other. |
| Generations.NewestCanBeLeftOut | internal/cli/callgraph_diff.go:113-131 | A measurement taken again after two others were first seen is not in the default comparison at all. |
| NodeFilter.FilterCallGraphRecord | internal/cli/callgraph_show.go:1334-1366 | The loops give the narrowed record, its counts, and how many ids matched. |
| NodeFilter.NarrowedHolds | internal/cli/callgraph_show.go:1334-1366 | An edge is kept exactly when it touches a selected node; a node exactly when selected or an end of a kept edge. |
| NodeFilter.NarrowedStands | internal/cli/callgraph_show.go:1345-1365 | What is kept stands in its order and as often as it stood, the counts are of it, and the hash of the whole is gone. |
| NodeFilter.SelectsIff | internal/cli/callgraph_show.go:1334-1344 | A node is selected when the pattern stands somewhere in its id, character by character, whatever the case. |
| NodeFilter.NarrowedIsClosed | internal/cli/callgraph_show.go:1345-1361 | A graph whose edges all end at nodes stays one. |
| NodeFilter.NothingMatchedIff | internal/cli/callgraph_show.go:1338-1345 | Nothing matched exactly when nothing is left. |
| NodeFilter.EmptyPatternKeepsAll | internal/cli/callgraph_show.go:1334-1366 | The empty pattern keeps a closed graph whole. |
| NodeFilter.Absorption | internal/cli/callgraph_show.go:1334-1366 | Filtering by a pattern and then by one that contains it is filtering by the second. |
| NodeFilter.AbsorptionIff | internal/cli/callgraph_show.go:1334-1366 | That law holds of every graph exactly when the second pattern contains the first. |
| NodeFilter.LongerPatternAbsorbs | internal/cli/callgraph_show.go:1334-1366 | Spelling a pattern out further absorbs it; the same filter twice is the filter once. |
| ForeignDraw.ForeignModuleIndex.ForRecord | internal/cli/callgraph_foreign.go:96-117 | For any coordinate: what is cached under its key, else a fresh read, errors included; an error is not cached, and every key keeps the record it was first asked for under. |
| ForeignDraw.ReadSays | internal/cli/callgraph_foreign.go:99-117 | A coordinate that names no module is refused unread; otherwise the read fails, or answers what was built, or nothing. |
| ForeignDraw.KeyIsInjective | internal/cli/callgraph_foreign.go:100 | The cache key tells coordinates and pipelines apart, for any path, where versions hold neither '@' nor NUL and pipelines no NUL. |
| ForeignDraw.PlainKeyIsInjective | internal/cli/callgraph_foreign.go:100 | It does so too for paths without '@' and versions without NUL. |
| ForeignDraw.KeysCanMeet | internal/cli/callgraph_foreign.go:100 | A version that holds an '@' can share its key with another module's. |
| ForeignDraw.CachedReadDiffersIff | internal/cli/callgraph_foreign.go:99-117 | Where versions that name a module and pipelines are plain, the cached answer is not the fresh one exactly when the key is cached and the coordinate names no module. |
| ForeignDraw.MeetingKeyIsServed | internal/cli/callgraph_foreign.go:99-106 | Such a coordinate is served the answer of the module whose key it shares, and a fresh read refuses it. |
| ForeignDraw.KeyedAreApart | internal/cli/callgraph_foreign.go:100 | Edges with plain versions and pipelines, or with plain paths and versions free of NUL, ask for no two records under one key. |
| ForeignDraw.ForeignModuleOwning | internal/callgraph/domain/foreignmodule.go:63-73 | The module returned is listed and owns the id; none is returned exactly when none does. |
| ForeignDraw.OwnsIff | internal/callgraph/domain/foreignmodule.go:54-73 | A foreign module owns what continues its path at a dot or a slash. |
| ForeignDraw.ShortestOwnerIsNamed | internal/callgraph/domain/foreignmodule.go:54-73 | Over the ordered column the outermost of nested owners is named. |
| ForeignDraw.InnermostIsNamedIff | internal/callgraph/domain/foreignmodule.go:54-73 | Over the ordered column the module named is an innermost owner exactly when all owners of the id share one path. |
| ForeignDraw.NestedModuleIsPassedOver | internal/callgraph/domain/foreignmodule.go:54-73 | A package of a module nested in another foreign module is put down to the outer one. |
| ForeignDraw.ForeignDrawOfEdges | internal/cli/callgraph_foreign.go:125-151 | For any edges the cached pass states the tally of reading every record as the one its key was first asked for under, or the first refusal; that is the tally of fresh reads where no two records share a key. |
| ForeignDraw.ForeignDrawOfNodes | internal/cli/callgraph_foreign.go:161-191 | The per-node index with its early stop states the same of scanning every edge for every node. |
| ForeignDraw.EdgeTallyCounts | internal/cli/callgraph_foreign.go:125-151 | Over the fields of the edges: a row counts exactly when a foreign module of its record owns its caller, for callers, or its callee, for callees; the modules are the first such of each row's record, and the holders those rows' records. |
| ForeignDraw.EdgeTallyRefuses | internal/cli/callgraph_foreign.go:129-133 | A refusal is the first one met. |
| ForeignDraw.NodeTallyCounts | internal/cli/callgraph_foreign.go:161-191 | Where every record reads, a node counts exactly when some edge with it as caller, or as callee, is foreign, under what the first such edge says. |
| ForeignDraw.OwnEdgesSuffice | internal/cli/callgraph_foreign.go:162-188 | Scanning a node's own edges finds what scanning every edge finds. |
| ForeignDraw.EdgeTallyIsConsistent | internal/cli/callgraph_foreign.go:125-151 | Rows never exceed the total, and are counted exactly when modules and holders are named. |
| ForeignDraw.NodeTallyIsConsistent | internal/cli/callgraph_foreign.go:161-191 | The same for a node answer. |
| ForeignDraw.DrawIsUnique | internal/cli/callgraph_foreign.go:210-230 | The rendered draw is one value, whatever order its sets are walked in. |
| ForeignDraw.AnyEdgeIsEnough | internal/cli/callgraph_foreign.go:153-160 | Where every record reads, a node counts exactly when some edge answering with it says it is foreign. |
| Throttle.ThrottledLines.Write | internal/cli/callgraphbound.go:137-155 | A write passes when none has or an interval has gone by, and always an interval or more after the last pass; a suppressed one reports full length, a failed one its error. |
| Throttle.ThrottledLines.WriteAll | internal/cli/callgraphbound.go:137-155 | Over any number of writes, in the order they take the lock, the lines passed are as many as the clock readings let pass. |
| Throttle.LastIsTheLastPass | internal/cli/callgraphbound.go:137-144 | The first write passes, and the field holds the last pass. |
| Throttle.RateBound | internal/cli/callgraphbound.go:123-155 | k passes span at least k - 1 intervals, in any order of lock-taking, whether or not the clock runs forward. |
| Throttle.ZeroClockPassesAll | internal/cli/callgraphbound.go:140 | A clock stuck at the zero time is not limited at all. |
| Throttle.NoneDoesBetter | internal/cli/callgraphbound.go:123-144 | Over a clock that runs forward no way of keeping the interval passes more lines. |
| BuildFrame.TwoSpellings | internal/cli/buildtarget.go:125-153 | A pair and its halves declare the same target. |
| BuildFrame.PairIsParsed | internal/cli/buildtarget.go:125-153 | A pair is read as system, slash and architecture, with the space around each trimmed. |
| BuildFrame.FlagsDeclare | internal/cli/buildtarget.go:125-153 | The halves declare their pair in order; two spellings at once, half a pair and a pair without a slash are refused. |
| BuildFrame.Container.AdoptDeclaredFrame | internal/cli/container.go:1083-1095 | The analyser has the declaration; the read frame is a TinyGo target's platform and name, else the declared pair, else the host's. |
| BuildFrame.Invocation.Declare | internal/cli/buildtarget.go:42-51 | After a declaration every open container agrees with it. |
| BuildFrame.Invocation.OpenStore | internal/cli/container.go:795-800 | A container opened agrees with the declaration in force; its resolver keeps it. |
| BuildFrame.Invocation.Release | internal/cli/buildtarget.go:53-63 | A release removes that container and disturbs no other. |
| BuildFrame.Invocation.ResolveBuildTarget | internal/cli/buildtarget.go:155-188 | On success or error the declaration is empty or the one just validated; after a pair, however spelt, every open container reads in that pair, which the toolchain lists; after a TinyGo name in its target; otherwise in the host's. |
| BuildFrame.Invocation.ResolveTinyGoTarget | internal/cli/buildtarget.go:190-199 | A TinyGo name is declared as the tinygo command defines it, or nothing changes. |
| BuildFrame.Invocation.ResolveReadTarget | internal/cli/buildtarget.go:298-317 | As resolving, except that a declaration beside a named walk is refused with the earlier one standing. |
| BuildFrame.Run | internal/cli/buildtarget.go:33-63 | Over every run of opens, releases, declarations and resolutions, open containers agree with the declaration in force, and every container ever opened stands as the run leaves it. |
| BuildFrame.OpenContainersReadAsDeclared | internal/cli/container.go:1083-1106 | At the end of any run every open container analyses under the declaration in force and reads in the frame it selects. |
| BuildFrame.SettledSays | internal/cli/buildtarget.go:167-199 | What a resolution leaves declared: listed halves, what the tinygo command says of a name, or nothing. |
| BuildFrame.ResolverIsKept | internal/cli/container.go:390-398 | A container's resolver is what was declared when it was opened, whatever comes after. |
| BuildFrame.ForgetsIff | internal/cli/buildtarget.go:167-188 | A step forgets what was declared before exactly when it declares, resolves, or is a read not refused. |
| BuildFrame.NothingIsInherited | internal/cli/buildtarget.go:18-26 | After such a step the run is the same whatever an earlier command declared. |
| BuildFrame.EarlierDeclarationStands | internal/cli/buildtarget.go:298-309 | A run with no such step leaves the earlier declaration in force. |
| BuildFrame.OrderOfOpening | internal/cli/buildtarget.go:33-40 | Anywhere in a run, opening before a declaration or after it leaves every container with one analyser and one read frame; the runs differ only in the opened container's resolver, and exactly when the declaration changed. |
| AuditExit.MarkVulnIntegrity | internal/cli/audit.go:937-953 | A row marked for a fault names it, keeps its first failure and shows no findings; other rows and faults are left alone. |
| AuditExit.MarkRefusedVulnRecords | internal/cli/audit.go:912-927 | Exactly the unscanned rows are read again and marked by what that read fails on. |
| AuditExit.MarkingIsSound | internal/cli/audit.go:937-953 | A marked row always carries a failure, and marking keeps an earlier one. |
| AuditExit.MarkSays | internal/cli/audit.go:937-953 | What a mark says of each fault, and what it leaves of the row. |
| AuditExit.RemarkSays | internal/cli/audit.go:912-927 | A row not marked before is marked by a second read exactly when it was not scanned and the read of its coordinate meets an integrity failure or a conflict. |
| AuditExit.RemarkingIsIdempotent | internal/cli/audit.go:912-927 | A second pass over the rows changes nothing. |
| AuditExit.AuditScanOutcome | internal/cli/audit.go:896-910 | No scan error is dropped: it is a failure or a partial run, and an integrity failure stays one. |
| AuditExit.ScanLegSays | internal/cli/audit.go:896-910 | A partial error is a partial run only with a run named and a module analysed; where none was, the failure says so; any other stands. |
| AuditExit.AuditBlockingErr | internal/cli/audit.go:1732-1775 | The unevaluated and the blocked coordinates, each in row order, or nothing when no row blocks. |
| AuditExit.EveryBlockingRowIsNamed | internal/cli/audit.go:1740-1757 | Every blocking row is named exactly once, as unevaluated or as blocked. |
| AuditExit.AuditOutcomeErr | internal/cli/audit.go:581-605 | The exit, and with 10 every failure a row carries, with the scan's own where no row is marked. |
| AuditExit.ExitSays | internal/cli/audit.go:581-605 | What each exit carries, over the fields of the rows: every failure's text, the coordinates unevaluated and those blocked. |
| AuditExit.ListsInRowOrder | internal/cli/audit.go:584-601 | Each list is in the order of the rows. |
| AuditExit.PrecedenceIff | internal/cli/audit.go:581-617 | 10 over 5 over 1 over 0, for every row list and scan outcome, except exactly where a marked row suppresses the scan's failure and none is carried. |
| AuditExit.AuditExitCode | internal/cli/audit.go:881-893 | Over rows as the run builds them, marking included, the exit is the precedence. |

## Left out

- ConfigHash.Backend.RecordEvent: all or nothing of an event; a line written in part is LedgerScan's. Two processes interleaving on one ledger are not modelled, since the code gives them no order.
- ConfigHash.Backend.RecordConfigChange: `config set` may select another backend and then records there; one store is modelled.
- LedgerScan.FileRunsKeepTheContract: hashes are not empty and a written line holds no newline, as the encoding has it; a marker file left in part is taken for the missing one it reads as. RunAgreesIff says which step first parts the marker from the log, not whether a later one brings them together again.
- LedgerScan.LastConfigHashInLog: reads of the file do not fail; what parses as a hash-setting line is a parameter under which the empty line sets no hash.
- YamlTree.LookupSetIn: an alias is a node of its own kind that is not followed, as in the code; a section held through an alias is therefore replaced by a fresh mapping when written below. Of a duplicated key the first answers. Comments other than the head comment an upgraded node keeps, and parsing and encoding, are not modelled.
- ConfigSet.RunConfigSet: parsing and validating the value is a parameter; the previous value reported and the file's creation are left out.
- ConfigSet.SeenOverrideSurvivesIff: what an anchor stands for is taken to be the same after the write, so the anchored node is not one the write goes through; merge keys are not followed.
- ConfigSet.SettableIsReadable: whether the loader accepts the file, which decides what `config get` calls its source, is not part of this model.
- EdgeQuery.RunEdgeQuery: stands for both commands, which differ in the end of the edge asked for and in scanning dispatch; the edge query's rows and whether the gap and working-tree reads succeed are parameters, the foreign draw printed under rows is ForeignDraw's, the failed packages a set, and the notices' text and the sinks' details are left out. Transitive queries are not modelled.
- EdgeQuery.SkippingIsSound: the columns are taken to summarise the generations a record is served from.
- Dependents.GraphVersionsOf: the semver comparison is a parameter; sorting is modelled by a stable sort, which the result does not depend on where the comparison is total.
- VulnCache.VulnBatch.AffectedFor: a record's composition in a frame is the store's answer; a batch without caches, for a store with no snapshot, answers nothing and is left out. The annotation follows the newest run of a run's walk, as the code does.
- RunContext.AnchoredVulnerabilities: choosing among a module's records is a parameter that chooses one of those offered; the superseded and set-aside statements are left out.
- Generations.SameDistinctGraphs: that equal measurement digests mean equal graph digests is its premise, as the source argues.
- NodeFilter.FilterCallGraphRecord: lower-casing folds one character at a time, by a parameter; the example id shown beside a miss is left out.
- ForeignDraw.ForeignModuleIndex.ForRecord: what the store answers does not change during a query.
- Throttle.ThrottledLines.Write: the lock makes writes a sequence in the order it was taken; lines pass to the writer underneath outside it, so their order there is not stated.
- BuildFrame.Invocation.ResolveBuildTarget: what the toolchain and the tinygo command answer is a parameter, the directory they are asked in included; GOARM and the tags of a frame are left out.
- BuildFrame.Run: sequential; an opening that races a declaration between adopting and being tracked is not modelled.
- AuditExit.AuditOutcomeErr: the wording of the exits, the scope the policy message names and the run's counts are left out.
- Command construction, rendering and JSON shapes: they print what the members above decide. Adapters other than the audit log and its marker, policy evaluation and graph traversal: code outside the command line, whose answers are parameters here.
