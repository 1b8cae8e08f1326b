# Colony admission and cold start: a verified model

This project models the evidence side of the colony's admission controller, and the cold-start
protocol of the trading loop, and proves what their readers rely on.

An **operation** admits one child into the colony. Every step is an entry on its append-only
**operation log**: PREPARED freezes the operation, three durable steps D1, D2, D3 are begun and
done, interrupted or recovered, and a terminal claim closes the attempt. A reader folds the lines
through a thirteen-mode machine, lets a torn line be acknowledged by the next one, and keeps the
last lines of the file for closing entries. Later stages never trust that projection alone: they
read prefixes again, select lines by digest, and fold the same entries for their own purpose. The
lines are **strict canonical JSON**. Faults that concern several files go to a second append-only
log, the **external fault log**. From both logs one **query universe** is built and compared with
the ledger. A birth rests on the records of its whole **lineage** and of the whole population:
those **needs** are derived, bounded, and compared with the frozen items of the operation.
The **cold start** drives a linear state machine until the trading loop may go live.

## How the model is laid out

| files | what they hold |
|---|---|
| `Prelude`, `Lines`, `Sorting` | option, result, bytes; split and join; sorting by a string key |
| `Utf8`, `Json`, `JsonRoundTrip`, `JsonDepth`, `JsonShortest`, `Formats`, `JsonLog` | the canonical encoding, the strict loader, the depth scanner, the shortness of the canonical form, and the loader as reader of log lines |
| `Oplog` | the entries, the machine (a specification and the mutable class), the reserve, `project_log` |
| `OplogRuns`, `OplogSafety`, `OplogReserve`, `OplogFiles`, `TornTails`, `OplogAttempts` | runs of accepted logs; commit safety; the reserve and progress; the same for files of bytes, complete or torn; line ranges and prefix re-reads |
| `OplogGrammar`, `OplogProjection` | the same log without a machine: which entry may come next and what each field of a projection says, from the entries and the lines alone |
| `Rescan`, `Actions`, `ActionTable` | the re-scans by digest, the action claims and the phase of a fault, and the table of all claims |
| `FaultLog`, `FaultSafety`, `FaultGrammar` | the external fault log, what its runs keep, and which line may come next from the fields of the earlier lines alone |
| `LogInventory`, `LedgerCoverage`, `ExternalLink`, `Universe` | the query universe, the ledger batch, the linkage of terminations, and the three together |
| `Lineage`, `Branches`, `Needs`, `Preflight`, `FrozenCover`, `Decision`, `Ceilings` | lineages, the parent's branch verified from its nodes, derived needs, their bound, the exact cover of frozen items, its decision part as a whole, and the counts and ceilings of the population |
| `CodeClosure` | the byte string behind the digest of a code closure |
| `Floats`, `WarmupMetrics`, `WarmupMachine`, `WarmupInvariants`, `ColdStart`, `ColdStartBound`, `ColdStartFailures` | floats with their special values, the cold-start protocol, and what each tick of a run does from the inputs so far |

SHA-256, the lexical reader of a line, the verification of one record, and the decoding of stored
records are function parameters, so the results hold for every choice of them. No result assumes a
hash without collisions: where two inputs that share a digest matter, the result names the inputs of
this very file or list (`Rescan.OwnDigest`, `LogInventory.Collide`, `ExternalLink.EntriesDiffer`,
`CodeClosure.NoCollision`).

A property of "every accepted log" is stated over runs: `OplogRuns.IsRun(env, events, states)` says
that `events` were accepted one after the other with `states` between them, and
`OplogRuns.AcceptedRun` gives the run of every accepted file. `FaultSafety.IsFaultRun` and
`ColdStart.IsWarmup` do the same for fault logs and for ticks. Every mutable class and every loop is
proved equal to a specification function, and the properties are proved of that function. What such a
function computes is stated once more without it: the log readers accept exactly the logs of a grammar
over entries (`OplogProjection.FilesAreLogs`, `FaultGrammar.FaultFilesAreLogs`), the loader exactly the
encodings that `Formats.LoadsWithin` describes, the walks end exactly where `Lineage.FailIsStop` and
`Branches.AscendStops` say, and a tick of the cold start does what `ColdStartFailures.OutcomeOfTick` says.

## What was found

- The thresholds of BUILDING_FEATURES and STABILIZING_REGIMES are not kept for values that are no
  numbers: a NaN passes the conversion of the snapshot (`cold_start/cold_start_manager.py:264-268`),
  the gate is shut only by a confidence below its threshold
  (`cold_start/warmup_state_machine.py:174-184`), and `min(1.0, nan)` makes the score 1
  (`cold_start/warmup_metrics.py:87`). `ColdStart.UnknownValuesPassTheGates` gives a run that is ready
  past both, and `ColdStart.LiveReadySkipsNoGate` the exact condition. The model follows the code.
- The minimum of ten shadow ticks, which `cold_start/warmup_scenarios.py:96` and the constants ask
  for, is not kept by the gate: a ninth shadow tick with a score of 0.9444 or more is enough,
  because nine tenths of it round to 0.85. `ColdStart.NineShadowTicksCanSuffice` gives a run, and
  `ColdStart.TenShadowTicksExactly` the exact condition. The same run is live while
  `WarmupMetrics.live_ready` is false. The model follows the code.
- The duplicate-operation guard of the acquisition can only fire on a log stored under the name of
  another child, or on two different operations with one digest (`LogInventory.AcquireLogs`).
- A re-scan by digest sees an earlier attempt too exactly if that attempt has the same digest, and
  then the two operations on their first lines are a collision (`Rescan.AttemptsAreRescanned`,
  `Rescan.SharedDigestIsCollision`).
- The 64-line test of the log reader never decides anything: the reserve implies it
  (`OplogReserve.LineLimitIsImplied`), and 64 lines are reached (`OplogFiles.SixtyFourLineFile`).
- A refused or abandoned attempt that ends at line 56 is a dead end: no PREPARED fits into the
  reserve (`OplogReserve.DeadEndsAreExactlyFinal`).
- The reserve holds two torn fragments. A third one cannot be acknowledged, and once it is ended by a
  newline the file stays corrupt whatever is appended, even while D3 has begun and nothing is claimed
  (`TornTails.CorruptForGood`, `TornTails.ThirdFragmentIsFatal`).
- The bound on needs is computed twice; like the first check, the second one never fires
  (`Ceilings.CurrentCeilings`).

## Model

| member | source | states |
|---|---|---|
| Oplog.Machine.constructor | colony_admission/oplog.py:43-57 | a new machine is empty, at level 0, with nothing bound, pending or claimed |
| Oplog.Machine.Restart | colony_admission/oplog.py:79-83 | PREPARED resets level, pending step, claim, D3 flag and recovery, and leaves digest, history and the boot of the last BEGIN alone |
| Oplog.Machine.PushSummary | colony_admission/oplog.py:59-78 | the attempt in hand joins the history exactly when there is one |
| Oplog.Machine.Prepare | colony_admission/oplog.py:72-83 | refuses unless the log is new or the last attempt was refused or abandoned, with a greater attempt number and the same child; otherwise the whole new state |
| Oplog.Machine.Acknowledge | colony_admission/oplog.py:64-71 | an acknowledgement names the attempt in hand or marks the preamble, and moves only mode and last line |
| Oplog.Machine.Start | colony_admission/oplog.py:88-92 | BEGIN of exactly the next step, from a resting or partial-D2 mode; whole new state |
| Oplog.Machine.Close | colony_admission/oplog.py:93-113 | DONE, BEGIN_CANCELLED and INTERRUPTED_RECOVERED against the pending step, cancel of D1 and same-boot recovery refused; whole new state |
| Oplog.Machine.End | colony_admission/oplog.py:114-137 | the five closing events with their modes, levels, codes and record digest, and the claim each makes; whole new state |
| Oplog.Machine.Repair | colony_admission/oplog.py:138-156 | faults, quarantine and set-aside with their modes and steps; whole new state |
| Oplog.Machine.Advance | colony_admission/oplog.py:84-156 | every event of the attempt in hand is refused or applied as specified |
| Oplog.Machine.ApplyEntry | colony_admission/oplog.py:62-157 | one entry is refused or applied as specified, whatever the state |
| Oplog.CountReserve | colony_admission/oplog.py:172-178 | past line 56 only reserve events are counted, each once, acknowledgements twice |
| Oplog.TakeEntry | colony_admission/oplog.py:210-220 | reserve first, then machine, for an entry of one or two lines |
| Oplog.ReadEntry | colony_admission/oplog.py:201-223 | one turn of the reader: a canonical entry, or a malformed line with its acknowledgement; limits and corruption told apart |
| Oplog.ProjectLog | colony_admission/oplog.py:181-228 | the projection of every file: the loop over lines equals the recursive reading of the complete lines, torn or not; what it shows is stated from the lines alone in OplogProjection |
| OplogRuns.ReaderRuns | colony_admission/oplog.py:197-223 | whatever the reader accepts is a run of the machine over the entries on its lines |
| OplogRuns.RunsAreRead | colony_admission/oplog.py:197-223 | conversely, lines whose entries form a run are accepted and end in the run's last state |
| OplogRuns.AcceptedRun | colony_admission/oplog.py:181-224 | every file that is not corrupt has a run, and its projection shows the run's last state |
| OplogGrammar.ValidIsEntry | colony_admission/formats.py:171-197 | an entry is valid exactly if its event carries the step and the data it may, and a PREPARED repeats digest, attempt, root, version and boot of its operation |
| OplogGrammar.StatesSayTheirEntries | colony_admission/oplog.py:62-157 | in every state of every accepted log each field is what the last entry that speaks of it says: claim, mode, level, pending step, boot of the last BEGIN, D3 flag, code, recovery, source of completion |
| OplogGrammar.FeedIsGrammar | colony_admission/oplog.py:62-178 | an entry is accepted exactly if it may follow the last action of its attempt and there is a line for it, told from the earlier entries alone |
| OplogGrammar.RunsAreLogs | colony_admission/oplog.py:62-178 | every accepted log is one of the grammar |
| OplogGrammar.LogsRun | colony_admission/oplog.py:62-178 | every log of the grammar is accepted |
| OplogProjection.EventsAreOnLines | colony_admission/oplog.py:201-223 | the lines carry entries exactly if each is an entry or a fragment, each fragment is followed by an acknowledgement, and each acknowledgement names the digest of the fragment before it |
| OplogProjection.FilesAreLogs | colony_admission/oplog.py:181-224 | a file is read exactly if it is at most 64 lines below 262144 bytes, the last one maybe without its newline, every complete line fits, and the entries on them are a log of the grammar |
| OplogProjection.ProjectionSays | colony_admission/oplog.py:159-170 | every field of a projection but the history, from the entries on the lines: the claim is that of the last claim or PREPARED, the code that of the last action, the source that of the last completion |
| OplogProjection.ClaimsAreWritten | colony_admission/oplog.py:59-60 | for every attempt of the history: its claim is the one REFUSED, ABANDONED, FAILED_CONSUMED or COMMITTED entry on its own lines, and there is none exactly if it claims nothing |
| OplogProjection.LastAttemptShown | colony_admission/oplog.py:159-170 | the history has one attempt for each PREPARED, and a complete file shows the claim of the last one |
| OplogProjection.CorruptSays | colony_admission/oplog.py:189-228 | every corrupt file is beyond the limits of a log, or refused behind the last lines that can be read, with the code of the line that follows |
| OplogSafety.FeedEffect | colony_admission/oplog.py:62-157 | each entry keeps the machine invariant and moves level, interruption and claim only as the protocol allows |
| OplogSafety.RunsKeepInv | colony_admission/oplog.py:62-157 | in every state of every accepted log, mode, level, pending step, claim and D3 flag fit together |
| OplogSafety.LevelAfterCompletion | colony_admission/oplog.py:93-113 | after a step is completed the level never falls below it again, it is not completed twice, and no attempt is prepared |
| OplogSafety.OneAttemptCompletesD1 | colony_admission/oplog.py:72-83 | at most one entry of a log completes D1, and no PREPARED follows it |
| OplogSafety.RunsKeepTrace | colony_admission/oplog.py:84-137 | every reachable state is justified by the entries of its attempt: completed steps in order, the open BEGIN, the COMMITTED entry |
| OplogSafety.CommitSafety | colony_admission/oplog.py:134-137 | a COMMITTED projection implies, in its last attempt and in order, BEGIN and completion of D1, D2 and D3, recoveries under another boot, then COMMITTED naming the frozen record |
| OplogReserve.RunsKeepReserve | colony_admission/oplog.py:172-178 | the position is covered by 56 lines and the counted reserve events, which the state still remembers |
| OplogReserve.RunsFitInSixtyFourLines | colony_admission/oplog.py:172-178 | no run is longer than 64 lines: past line 56 at most four ordinary entries and two acknowledged fragments |
| OplogReserve.LineLimitIsImplied | colony_admission/oplog.py:194-195 | lines the reader accepts are at most 64 without the explicit test |
| OplogReserve.SixtyFourLinesAreReached | colony_admission/oplog.py:172-178 | for every operation that can be prepared and every torn fragment, valid entries of its one attempt form a run of exactly 64 lines, so the reserve is sized exactly |
| OplogFiles.SixtyFourLineFile | colony_admission/oplog.py:181-228 | for every writer whose lines the reader understands, some accepted file of that attempt has exactly 64 lines |
| OplogReserve.NoOperationIsStuck | colony_admission/oplog.py:121-154 | from every reachable state without a claim, any well-formed closing entries for the attempt are accepted and claim it (one if it is terminating, else two), and any two set-aside entries clear it if D3 ever began, within 64 lines |
| OplogFiles.NoFileIsStuck | colony_admission/oplog.py:181-228 | an unfinished file with any such lines appended is accepted, shows FAILED_CONSUMED for its operation within 64 lines, and is cleared by two set-aside lines if D3 ever began |
| TornTails.TornTailIsAcknowledged | colony_admission/oplog.py:201-220 | a torn file, continued by a newline and an acknowledgement of its fragment, is accepted exactly if the fragment does not lex and its position plus two is at most 56 or fewer than two acknowledgements are counted; it then shows the same state with only the last line moved (a preamble as an incomplete preparation), and otherwise it is corrupt |
| TornTails.CorruptForGood | colony_admission/oplog.py:172-178 | where there is no such room, the file stays corrupt whatever bytes follow the newline that ends the fragment |
| TornTails.AcknowledgedFileIsNotStuck | colony_admission/oplog.py:181-228 | in the accepted case an unfinished attempt is still closed by the operator's lines, and cleared by two set-aside lines if D3 ever began, within 64 lines |
| TornTails.ThirdFragmentIsFatal | colony_admission/oplog.py:172-178 | for every operation that can be prepared and every writer, some torn file has D3 begun and no claim, and is corrupt for good once its third fragment in the reserve is ended |
| OplogFiles.AppendLines | colony_admission/oplog.py:189-193 | appending complete lines to a complete file adds exactly these lines |
| OplogReserve.DeadEndsAreExactlyFinal | colony_admission/oplog.py:62-178 | the reader accepts some further entry, acknowledgements aside, exactly unless the machine is of one of the four final kinds, or a refused or abandoned attempt has reached line 56 |
| OplogReserve.LaterAttemptIsTaken | colony_admission/oplog.py:72-83 | before line 56 every later attempt of a refused or abandoned operation's child is accepted |
| OplogAttempts.AttemptsAreAdjacent | colony_admission/oplog.py:59-83 | the attempts' line ranges are ordered and adjacent, end at the last line, and their numbers increase |
| OplogAttempts.StartLine | colony_admission/oplog.py:82-82 | the line an attempt starts on is the line of its PREPARED |
| OplogAttempts.PrefixReparse | colony_admission/evidence_observer.py:195-205 | the file up to the end of any attempt is accepted again with that attempt's digest, number, claim and history, and its first line holds its operation |
| OplogAttempts.Attempts | colony_admission/evidence_observer.py:195-205 | the loop yields every attempt, and its guard never fires |
| Rescan.EventsOf | colony_admission/_population_faults.py:56-66 | the pass over the split lines returns exactly the entries that lex and carry the digest, and tells whether a line held JSON that is no entry, on which the source may fail or take it for one |
| Rescan.AcceptedFilesAreExact | colony_admission/_population_faults.py:56-66 | an accepted complete file has no such line |
| Rescan.RescanSelects | colony_admission/_population_faults.py:56-66 | on an accepted log only torn fragments fail to lex, so the re-scan is a selection of the accepted entries |
| Rescan.DigestTellsAttempts | colony_admission/oplog.py:72-86 | every entry of the last attempt carries its digest; an earlier one only if it is an acknowledgement, or an earlier attempt has that digest |
| Rescan.RescanSeesTheAttempt | colony_admission/observer.py:244-262 | selecting by the projected digest gives the entries of the last attempt, after acknowledgements only exactly if no earlier attempt of the file has that digest |
| Rescan.AttemptsAreRescanned | colony_admission/_population_faults.py:56-66 | for every attempt, the re-scan of its prefix gives the entries on its own lines, after acknowledgements only exactly if no earlier attempt has its digest |
| Rescan.SharedDigestIsCollision | colony_admission/formats.py:180-188 | two attempts of one accepted file with one digest hold different operations on their first lines |
| Actions.ReadClaims | colony_admission/_population_faults.py:128-146 | the loop over the re-scanned entries computes the claims of the attempt |
| Actions.ClaimsAreWritten | colony_admission/_population_faults.py:134-146 | quarantine and set-aside claims are those of the last entry that names them, the third step stands exactly as the last BEGIN, BEGIN_CANCELLED or COMMITTED of D3 says |
| Actions.RunsKeepClaims | colony_admission/_population_faults.py:134-146 | at every point of every accepted log the claims follow the machine |
| Actions.ActionsFollowMachine | colony_admission/_population_faults.py:124-150 | in a file whose last attempt shares its digest with no earlier one: set-aside is DONE exactly in the cleared mode and BEGIN exactly while it runs or is blocked; an unfinished quarantine excludes open, interrupted, partial, recovered and committed states; a D3 begun again is reported |
| Actions.NothingUnderQuarantine | colony_admission/oplog.py:146-152 | no BEGIN, DONE or COMMITTED is accepted while the claims say an unfinished quarantine |
| Actions.FaultsNameTheirPhase | colony_admission/observer.py:271-284 | every durability fault of an accepted log carries the step that belongs to the phase the join computes for it |
| ActionTable.ReadTable | colony_admission/_population_faults.py:124-159 | the loops fill the table with the claims of every attempt, then with the external set-aside lines |
| ActionTable.PlacesSay | colony_admission/_population_faults.py:147-150 | an attempt has a place for its quarantine under its number exactly if an entry names one, and a terminal place exactly if one names a set-aside; each says what the last such entry says |
| ActionTable.AttemptPlaces | colony_admission/_population_faults.py:147-150 | with distinct digests each attempt finds exactly its own claims at the places of its digest |
| ActionTable.ExternalPlaces | colony_admission/_population_faults.py:151-158 | external lines only touch the terminal places of their operations, pending or done |
| ActionTable.NoClaimIsOverwritten | colony_admission/_population_faults.py:124-159 | on a complete acquisition no claim overwrites another, readable or external, and nothing else is in the table |
| FaultLog.ProjectFaultLog | colony_admission/external_evidence.py:290-365 | the pass over the lines with its seven accumulators equals the recursive reading of the log |
| FaultGrammar.ShapesAre | colony_admission/external_evidence.py:219-236 | the shape of a line: scope, phase and step fit, a lab line names nothing, every other one child, operation and attempt |
| FaultGrammar.TargetsAreInTable | colony_admission/external_evidence.py:188-216 | what a fault may be of, resource by resource: its kind, its path, its scope |
| FaultGrammar.PathsArePlain | colony_admission/external_evidence.py:195-196 | a relative path is exactly names of the allowed characters, none of them a dot name, joined by slashes |
| FaultGrammar.DecimalReads | colony_admission/external_evidence.py:212-212 | the attempt in a quarantine path is written in decimal without leading zeros |
| FaultGrammar.FaultLinesAre | colony_admission/external_evidence.py:109-117 | the lines of a file: it is them, each ended by a newline, at most 4096 of at most 16384 bytes each |
| FaultGrammar.StatesRecall | colony_admission/external_evidence.py:295-357 | in every state of every accepted fault log each accumulator is what the lines so far say |
| FaultGrammar.TakeLineIsGrammar | colony_admission/external_evidence.py:297-359 | a line is accepted exactly if it may come next, told from the fields of the earlier lines: the binding of its operation, the fault it answers, the set-aside that is open, the directory faults that block it |
| FaultGrammar.FaultFilesAreLogs | colony_admission/external_evidence.py:290-365 | a file is read exactly if its lines keep to the limits and carry a log of this grammar |
| FaultGrammar.ProjectionShows | colony_admission/external_evidence.py:360-363 | the faults and terminations shown are those of the lines in their order, one ledger line found meaning consumed; pending set-asides and the two flags likewise |
| FaultSafety.LinesRun | colony_admission/external_evidence.py:297-359 | an accepted fault log is a run of its entries |
| FaultSafety.PrefixIsRead | colony_admission/external_evidence.py:297-363 | every prefix of the lines of an accepted fault log is accepted, with a prefix of the claims, and what is settled there stays settled |
| FaultSafety.FilePrefixIsRead | colony_admission/external_evidence.py:290-365 | every prefix of the bytes that ends with a line is accepted as a file, with the first lines and a prefix of the claims |
| FaultSafety.ClaimsGrow | colony_admission/external_evidence.py:302-357 | a line appends claims, keeps bindings, and never reopens a settled set-aside |
| FaultSafety.RunsStayLinked | colony_admission/external_evidence.py:302-344 | faults agree with the bindings, a faulty log blames one operation of its child, and terminations stay linked |
| FaultSafety.TerminationsAreLinked | colony_admission/external_evidence.py:333-344 | each termination comes from a line that answers the fault of an earlier line: same operation, child and attempt; no operation is terminated twice and no child has two |
| FaultSafety.OperationsKeepTheirChild | colony_admission/external_evidence.py:302-306 | lines about one operation name one child and one attempt |
| FaultSafety.PendingIsBeginWithoutDone | colony_admission/external_evidence.py:352-361 | the pending set-asides are exactly the operations with a BEGIN and no DONE |
| FaultSafety.FaultedSetAsideIsNeverDone | colony_admission/external_evidence.py:331-357 | a set-aside faulted after it began is never finished |
| FaultSafety.NoSetAsideAfterDirectoryFault | colony_admission/external_evidence.py:278-287 | after a FAULT line of the controller, FSYNC or RENAME, of the individuals directory, of the quarantine root or of a child's own home, no line sets that child aside |
| Utf8.EncodeChar | colony_admission/formats.py:53-54 | ASCII is itself, everything else only octets from 0x80 on |
| Utf8.DecodesExactlyEncodings | colony_admission/formats.py:104-104 | the strict decoder accepts exactly the encodings, each as the text it encodes |
| Utf8.OctetsAre | colony_admission/formats.py:53-54 | the octets of a code point are those of the table in section 3 of RFC 3629 |
| Formats.ParsedTextIsGood | colony_admission/formats.py:104-105 | what the parser accepts repeats no key in any object and has no integer of more than 128 digits |
| JsonRoundTrip.ParseEscaped | colony_admission/formats.py:53-54 | an escaped string, whatever follows, reads back as itself |
| JsonRoundTrip.ParsePrintedInt | colony_admission/formats.py:69-72 | a printed integer reads back, or is refused exactly for more than 128 digits |
| JsonRoundTrip.DigitsBound | colony_admission/formats.py:69-72 | at most k digits means below ten to the k |
| JsonRoundTrip.ParsePrinted | colony_admission/formats.py:51-54 | a printed tree without repeated keys reads back, whatever follows, unless one of its integers is too long |
| JsonDepth.ScanDepth | colony_admission/formats.py:79-96 | the loop over the bytes fails exactly where the scan passes depth 32 |
| JsonDepth.ScanEscaped | colony_admission/formats.py:81-88 | nothing inside a string counts, brackets and escaped quotes included |
| JsonDepth.ScanPrinted | colony_admission/formats.py:79-96 | on printed text the scan fails exactly where the tree nests deeper than the limit, and leaves its state otherwise |
| JsonDepth.ScanEncoded | colony_admission/formats.py:79-96 | scanning the octets of a text is scanning its code points |
| Formats.Pairs | colony_admission/formats.py:61-66 | a dict with exactly the pairs, refused exactly when a key repeats |
| Formats.SortTreeKeeps | colony_admission/formats.py:53-53 | sorting the keys keeps depth and integer bound and gives a normal value |
| Formats.ScanCanonical | colony_admission/formats.py:79-96 | on a canonical encoding the scanner raises exactly if the tree is deeper than 32 |
| Formats.LoadsCanonical | colony_admission/formats.py:99-111 | loading a canonical encoding gives the value back as a dict, or the limit error exactly for depth or digits |
| Formats.LoadsExactly | colony_admission/formats.py:99-111 | the loader returns v from raw exactly if v is normal, within the limits, and raw is its encoding; so the digest of what was loaded is the hash of the bytes |
| Formats.LoadsWithin | colony_admission/formats.py:99-111 | the same in numbers: fewer than 262144 octets, depth at most 32, the keys of every object in it increasing, every integer in it below ten to the 128 |
| Formats.NormalIsIncreasing | colony_admission/formats.py:51-54 | a value is normal exactly if the keys of every object in it increase in their first differing code point |
| Formats.LoadedKeysIncrease | colony_admission/formats.py:51-54 | in whatever the loader returns the members of every object increase so |
| Formats.CanonicalIsInjective | colony_admission/formats.py:51-58 | within the digit limit two values share an encoding only if they are equal as dicts |
| JsonShortest.PrintIsShortest | colony_admission/formats.py:51-54 | no text that the parser accepts for a value is shorter than its printed text: no spaces, no needless escapes, no padding |
| JsonShortest.CanonicalIsOneLine | colony_admission/formats.py:51-54 | a canonical encoding holds no octet below 0x20, so no newline |
| JsonShortest.Spelling | colony_admission/formats.py:51-54 | how null, the booleans, empty lists and objects and strings are spelled |
| JsonShortest.IntSpelling | colony_admission/formats.py:51-54 | integers are written in decimal, first digit first, a minus in front of a negative one |
| JsonShortest.Separators | colony_admission/formats.py:51-54 | elements and members are separated by a comma, key and value by a colon, without spaces |
| JsonShortest.EscapeSpelling | colony_admission/formats.py:51-54 | each character of a string is itself, a short escape, or four lower-case hex digits |
| JsonLog.AppendIsOneLine | colony_admission/oplog.py:189-193 | appending a canonical encoding and a newline to a complete file adds exactly that one line |
| JsonLog.EmptyLineIsMalformed | colony_admission/_population_faults.py:60-63 | the empty part after the last newline never lexes |
| JsonLog.EntriesAreCanonical | colony_admission/oplog.py:206-206 | a line that lexes to an entry is the one canonical spelling of a normal value of that shape |
| JsonLog.JsonLogsAreRescanned | colony_admission/_population_faults.py:56-66 | for JSON logs the re-scan result needs no assumption at all |
| LogInventory.ProjectedTermsAreDistinct | colony_admission/_population_log_acquisition.py:102-105 | the terminations of an accepted fault log have distinct operations and children |
| LogInventory.TerminalTable | colony_admission/_population_log_acquisition.py:105-105 | the per-child table has every terminated child, and every claim when children are distinct |
| LogInventory.ListUnread | colony_admission/_population_log_acquisition.py:112-119 | the unread logs are the claims in the order of their children, with their sizes; refused exactly if one of them or their sum exceeds its byte limit |
| LogInventory.TakeAttempts | colony_admission/_population_log_acquisition.py:130-143 | every attempt of a log is added once, in order, with the facts about it; success means that all are bound and small, and each refusal names a failing condition: a digest that repeats, a foreign or terminated operation, too many items or operations |
| LogInventory.AcquireLogs | colony_admission/_population_log_acquisition.py:86-146 | succeeds exactly if the fault log is intact, every size, count and item limit is kept, every log that is read is readable and bound to its lab and child, and no digest repeats; then it holds every termination and every attempt of every other log once; a refusal names a condition that fails |
| Universe.SortedIsQuery | colony_admission/_population_log_acquisition.py:145-145 | the sorted ids of an inventory are a query: in order, without repetition, and the same set |
| Universe.UniverseIsQueried | colony_admission/_population_log_acquisition.py:86-146 | the ids of a complete inventory are exactly the terminated operations and the attempts found, at most 256 |
| Universe.AcquireAndLink | colony_admission/_population_acquisition.py:208-223 | after a successful acquisition linking succeeds exactly if the batch that answers the query is allowed: no termination is ever found unqueried; and on honest rows MATCH holds exactly if the ledger covers the acquired universe |
| LedgerCoverage.CountRows | colony_admission/_population_external.py:84-107 | the loop accepts exactly well-formed rows, sums their entries, notices conflicts and indexes them |
| LedgerCoverage.ReadBatch | colony_admission/_population_external.py:63-119 | a batch is accepted exactly if query, totals and rows fit, and over its limits exactly for more than 256 operations or rows; status and codes as judged |
| LedgerCoverage.MatchMeansCovered | colony_admission/evidence_observer.py:208-220 | on rows that count an actual ledger, MATCH holds exactly if every line belongs to a queried operation and no two lines to the same |
| LedgerCoverage.BatchSaysLedger | colony_admission/_population_external.py:63-107 | a batch that counts a ledger is accepted exactly if every row repeats the totals and its status, failures and entry say how many lines of the ledger name its operation |
| LedgerCoverage.RowMeansCount | colony_admission/_population_external.py:84-107 | so does every row of an accepted batch |
| FaultSafety.TermsAreMade | colony_admission/external_evidence.py:333-344 | every termination comes from one line of the log, with its finding |
| ExternalLink.EntryTable | colony_admission/_population_external.py:133-133 | the table by digest has every entry's digest, and only entries with that digest |
| ExternalLink.Link | colony_admission/_population_external.py:122-153 | succeeds exactly on an allowed batch and an intact fault log of at most 256 terminations that were all queried, with the reason told apart otherwise; one binding per termination in the order of operations: PASS exactly if the finding is embedded, the row not ambiguous, and status, count and entry of the row equal those of the finding on the line that made the claim, FAIL exactly if one of them differs, with the codes of each |
| ExternalLink.LinkageMeansLedger | colony_admission/_population_external.py:139-149 | on honest rows a PASS says that the claim is consumed exactly if the ledger holds a line of the operation |
| ExternalLink.ResolvedIsConfirmed | colony_admission/_population_external.py:150-153 | every resolved operation is one whose claim the ledger confirms so |
| ExternalLink.EveryClaimOnce | colony_admission/_population_external.py:150-153 | resolved and unresolved together hold every terminated operation once, and never both |
| Sorting.SortByOrders | colony_admission/_population_external.py:135-135 | sorting by a key is a permutation in key order, which BeforeIsFirstDifference makes the order of code points |
| Sorting.BeforeIsFirstDifference | colony_admission/formats.py:53-53 | a key comes before another exactly if it is a proper prefix or smaller at the first place where they differ |
| Sorting.SortedKeysIncrease | colony_admission/_population_external.py:135-135 | after sorting, each key is equal to the next or comes before it so |
| Lineage.WalkFindsClimbs | colony_admission/_population_core.py:72-87 | the bounded walk finds exactly the duplicate-free climbs to a founder |
| Lineage.WalkEnds | colony_admission/_population_core.py:72-87 | the walk stops with a code, or exceeds a limit, exactly at the end of a climb that has to end so: a repeated or unknown agent, a tenth one, or what the files of a home are |
| Lineage.PassIsLineage | colony_admission/_population_core.py:70-92 | a home passes with a branch exactly if the branch is an accepted lineage of at most nine, founder first, that ends at the home |
| Lineage.AncestorsPass | colony_admission/_population_core.py:70-92 | when a home passes, every ancestor passes with the branch up to it |
| Lineage.AbortIsLimit | colony_admission/_population_core.py:93-95 | the fact of a home aborts everything exactly when its walk exceeds a limit |
| Lineage.FailIsStop | colony_admission/_population_core.py:70-95 | a home fails with a code exactly if its walk has to stop with it, or its branch reaches a founder and the first agent that is not accepted is rejected with it |
| Lineage.Climb | colony_admission/_population_core.py:72-87 | the inner loop terminates on every parent graph and is the specified walk |
| Lineage.VerifyDown | colony_admission/_population_core.py:88-91 | the loop down the chain finds the first rejection, founder first |
| Lineage.Structures | colony_admission/_population_core.py:63-101 | one fact per home in the order of ids; refused exactly for repeated ids, more than 65 homes or an exceeded walk |
| Needs.AddAllKeys | colony_admission/_attestation_core.py:193-201 | the derived keys are those of the stored records, however often each occurs |
| Needs.DerivedKeys | colony_admission/_population_preflight.py:195-218 | a key is derived exactly if a stored record of the candidate or of some home has it |
| Needs.DerivedSays | colony_admission/_population_preflight.py:175-222 | evidence is missing exactly if the statement, the record of a home or a part of a birth is; it diverges exactly if a record is none or of neither role, cannot be keyed, or differs from another of its key and digest; and every need keeps the record of some requirement |
| Needs.NeedBound | colony_admission/_population_preflight.py:226-232 | at most 4P - 3F + 3 derived needs, and at most 4M - 4 when P is below M and there is a founder |
| Preflight.Add | colony_admission/_population_preflight.py:178-194 | one record is noted, keyed or divergent as specified; each limit is reported exactly when it is exceeded |
| Preflight.Collect | colony_admission/_population_preflight.py:195-218 | the loops derive exactly the specified needs, and succeed exactly if the candidate's records fit their byte limits and the needs their number |
| Preflight.BoundHolds | colony_admission/_population_preflight.py:223-232 | whenever the bound is computed, the needs keep to it |
| Preflight.CodesApply | colony_admission/_population_preflight.py:160-222 | each code of the preflight exactly when it applies to the operation, its homes and their lineages |
| Preflight.CleanIsCounted | colony_admission/_population_preflight.py:223-232 | without a code population, founders and bound were counted, with the candidate's own home set apart |
| Preflight.DeriveOperation | colony_admission/_population_preflight.py:155-238 | the codes are exactly those that apply, population and founders counted exactly if no code but missing or divergent evidence stands; succeeds exactly if the candidate's records have at most 65536 and its statement at most 16384 bytes, and the needs are at most 4M - 4 and 252; the bound check never fires, and the item limit only where the bound itself passes 252 |
| FrozenCover.CollectDecision | colony_admission/_attestation_core.py:242-249 | the dict of decision items, and whether a need was frozen with the other role |
| FrozenCover.DecisionPartition | colony_admission/_attestation_core.py:242-259 | each decision code exactly when its discrepancy exists, divergence exactly if a need was presented with an envelope other than the frozen one; needs take over the frozen envelopes |
| FrozenCover.NeedsSay | colony_admission/_attestation_core.py:193-201 | a derived need holds the record, all the places and all the envelopes of the requirements with its key |
| FrozenCover.EnvelopesArePresented | colony_admission/_attestation_core.py:228-229 | the envelopes of a decision need are those its presented records were presented with |
| FrozenCover.AggregateIs | colony_admission/_population_counts.py:217-217 | the aggregate fails exactly if a part fails, and passes exactly if there is one and all pass |
| Branches.AscendIsWalk | colony_admission/_attestation_core.py:144-159 | the climb over the nodes is the walk of the population's lineages, up to the codes of what goes wrong |
| Branches.AscendStops | colony_admission/_attestation_core.py:144-159 | the climb stops with a code exactly at the end of a climb that has to stop so |
| Branches.VerdictIsRefusal | colony_admission/_attestation_core.py:161-176 | why a node is refused: its record, a part of its birth that is not stored, or its admission by the parent |
| Branches.VerifyBranch | colony_admission/_attestation_core.py:134-185 | passes exactly if some branch over exactly these nodes is accepted (lineage, births admitted, plan admitted), and names it; otherwise the one code of the first condition that fails, not evaluated exactly for an incomplete branch |
| Branches.ReadNodes | colony_admission/attestation_observer.py:108-142 | the loop terminates on every parent graph and reads the specified nodes, or exceeds a file or depth limit |
| Branches.AcceptedIsStructure | colony_admission/_attestation_core.py:161-179 | a branch is accepted exactly if the structure of the parent passes with it, the child is not on it, and every birth and the plan are admitted |
| Branches.ParentBranch | colony_admission/attestation_observer.py:108-142 | from the stored homes, reading and verifying pass exactly if the parent has an accepted branch whose births keep to their byte limits, and name that one |
| Branches.AcceptedOnce | colony_admission/_attestation_core.py:134-185 | no parent has two accepted branches |
| Decision.DecisionNeeds | colony_admission/_attestation_core.py:223-240 | the needs of candidate and branch, exactly when the presented records match, every stored file can be read within its size, and none is missing or divergent; each gap is told apart |
| FrozenCover.PresentedMeans | colony_admission/_attestation_core.py:226-228 | the presented records match exactly if the three digests are those of admission, qualification and statement |
| Decision.Decide | colony_admission/_attestation_core.py:204-264 | the whole partition: item cap, branch verified anew, claimed branch, needs, cap on needs, comparison; it passes exactly if all hold along the accepted branch of the parent, the frozen decision items are the needs, and each of the three presented records is frozen with the envelope it was presented with; a branch that fails gives its own status and codes |
| Decision.Compare | colony_admission/_attestation_core.py:220-264 | on a branch that stands it passes exactly if the needs are sound, within the cap and frozen as they are, the presented records with their own envelopes; every other verdict and code has its condition |
| Decision.EnvelopesAgree | colony_admission/_attestation_core.py:254-258 | no need has an envelope other than the frozen one exactly if the three presented records are frozen as presented |
| Decision.GapsAre | colony_admission/_attestation_core.py:32-39 | which stored records cannot be decoded, from their bytes: absent or beyond 65536 bytes, 16384 for a statement, or not canonical |
| Decision.PreflightUsesTheBranch | colony_admission/_population_preflight.py:164-176 | the ancestors the preflight works with are those of the accepted branch |
| FrozenCover.PopulationPartition | colony_admission/_population_counts.py:98-135 | passes exactly if every copy agrees and every POPULATION item is needed; not evaluated exactly if only late descendants' individuals are missing; otherwise exactly the codes that some copy or item draws |
| FrozenCover.CopiesAre | colony_admission/_population_counts.py:78-94 | a counted home holds exactly the copies that pair the key of a stored record with the digest of the envelope beside it |
| FrozenCover.PassIsExactCover | colony_admission/_population_counts.py:217-217 | the aggregate passes exactly if decision items are the decision needs, population items the other copied keys, every copy names the frozen envelope, and every envelope a need was presented with is the frozen one |
| FrozenCover.DerivedIsUnion | colony_admission/_population_preflight.py:195-218 | the preflight derives exactly the union of the two parts' needs, for classified homes whose founders hold their envelope |
| FrozenCover.CoverIsDerived | colony_admission/_population_counts.py:195-199 | a passing cover freezes exactly the derived needs, one item each, so at most 4P - 3F + 3 |
| Ceilings.Count | colony_admission/_population_counts.py:138-156 | complete exactly if every home is classified, failed exactly if one blocks; then population, founders and the parent's children among the included homes |
| Ceilings.CountsAreThePreflights | colony_admission/_population_counts.py:138-156 | on classified homes population and founders are those of the preflight |
| Ceilings.TallyIsSize | colony_admission/_population_counts.py:138-156 | a tally is the number of included homes with the property |
| Ceilings.ChildrenDescend | colony_admission/_population_counts.py:150-151 | on homes whose lineages pass, the children that are counted are the included homes that descend from the parent |
| Ceilings.Limit | colony_admission/_population_counts.py:185-202 | the ceilings on population and children, and the limit exactly if a bound that applies is exceeded |
| Ceilings.CurrentCeilings | colony_admission/_population_counts.py:169-202 | after the preflight of the same homes the limit is never raised, and population and founders are the preflight's |
| CodeClosure.CodeDigest | colony_admission/_attestation_statement.py:49-63 | succeeds exactly on an allowed, encodable list, with the hash of its encoding; each error has its own condition, the first file beyond a limit or without an encoding deciding |
| CodeClosure.SafeNameMeans | colony_admission/_attestation_statement.py:40-46 | a name is safe exactly if it is no dot name, holds no NUL, and its lower case avoids every forbidden token, name, prefix and ending |
| CodeClosure.SafePathMeans | colony_admission/_attestation_statement.py:37-46 | a path is safe exactly if it is safe names joined by slashes, without a backslash |
| CodeClosure.SafePathStaysInside | colony_admission/_attestation_statement.py:37-46 | following a safe path never leaves the directory it starts in |
| CodeClosure.SafePathHasNoNul | colony_admission/_attestation_statement.py:37-46 | a safe path has no NUL anywhere |
| CodeClosure.EncodingReadsBack | colony_admission/_attestation_statement.py:58-62 | the hashed bytes read back as the paths and content digests |
| CodeClosure.EncodingIsUnique | colony_admission/_attestation_statement.py:58-62 | two allowed lists with one encoding are the same paths with the same digests, and the same files exactly if no two files at one place of the lists collide |
| WarmupMetrics.MetricsHistory.Record | cold_start/warmup_metrics.py:153-156 | appends the record and drops the oldest one when there are more than five |
| WarmupMetrics.StabilityIsFinite | cold_start/warmup_metrics.py:158-167 | the stability is a finite number of at most 1, whatever the snapshots held |
| WarmupMetrics.AverageOf | cold_start/warmup_metrics.py:171-174 | the average of a window is the mean of its scores to four digits |
| WarmupMetrics.FlagWeights | cold_start/warmup_metrics.py:76-85 | what the sum loses without each flag |
| WarmupMetrics.AnomalyWeight | cold_start/warmup_metrics.py:84-84 | each of the first ten anomalies costs a tenth of their weight |
| WarmupMetrics.ValueWeights | cold_start/warmup_metrics.py:76-87 | the weights of coverage, feature confidence and regime stability |
| WarmupMetrics.ScoreEnds | cold_start/warmup_metrics.py:66-87 | the score is 1 with everything in place, and 0 as soon as a hard limit or a position is in doubt |
| WarmupMetrics.ReadyMeans | cold_start/warmup_metrics.py:90-97 | the metrics call themselves ready exactly if nothing is in doubt, ten shadow ticks are done and the sum is at least 0.84995 |
| Floats.RoundReaches | cold_start/cold_start_manager.py:90-97 | rounding to four digits reaches an even bound exactly from half a unit below |
| Floats.NearestIs | cold_start/warmup_metrics.py:87-87 | rounding goes to the nearest integer, the even one of two |
| Floats.RoundingIs | cold_start/warmup_metrics.py:87-87 | rounding gives a multiple of the last digit, at most half of one away |
| Floats.LessIsOrder | cold_start/warmup_state_machine.py:174-174 | a comparison is the order of the extended line, and false for a value that is no number |
| WarmupMachine.WarmupStateMachine.constructor | cold_start/warmup_state_machine.py:122-128 | the machine starts in BOOTING with one open record |
| WarmupMachine.WarmupStateMachine.ExitCurrent | cold_start/warmup_state_machine.py:236-241 | only the last record is closed |
| WarmupMachine.WarmupStateMachine.Fail | cold_start/warmup_state_machine.py:223-234 | failing closes the open record with the reason and opens a FAILED one |
| WarmupMachine.WarmupStateMachine.Advance | cold_start/warmup_state_machine.py:202-221 | advancing closes the record with its confidence, opens the next state's, and resets both counters |
| WarmupMachine.WarmupStateMachine.TryAdvance | cold_start/warmup_state_machine.py:158-184 | timeout first, then the gate, shut only by a confidence that compares below the threshold, with the stuck counter and its bound of thirty; whole new state |
| WarmupInvariants.Check | cold_start/warmup_invariants.py:316-357 | one result per invariant of the state, a failed critical one for an invariant that raises; critical exactly if a critical one fails |
| WarmupInvariants.CriticalIsDanger | cold_start/warmup_invariants.py:247-357 | a tick is critical exactly if an invariant of the state raises, or one of the listed conditions endangers the state |
| WarmupInvariants.WarningIsDoubt | cold_start/warmup_invariants.py:130-145 | an invariant fails without stopping the start exactly for the advisor in BOOTING, pending decisions while fetching, or a stale regime |
| ColdStart.ColdStartManager.constructor | cold_start/cold_start_manager.py:115-129 | the manager starts with a fresh machine, an empty window and zero counters |
| ColdStart.ColdStartManager.DoTick | cold_start/cold_start_manager.py:135-215 | one tick is the specified step: metrics, shadow and zero-data counters, invariants, confidence, transition |
| ColdStart.WindowIsLatest | cold_start/warmup_metrics.py:153-156 | in every run, while it lasts, the window holds the metrics of the last five ticks in order |
| ColdStart.TickDescends | cold_start/warmup_state_machine.py:173-184 | every tick outside a terminal state uses up one of the remaining ticks |
| ColdStartFailures.RunsCount | cold_start/cold_start_manager.py:135-215 | in every running state the counters and the open record are what happened: ticks spent in the state, ticks in a row without data, the time of entry |
| ColdStartFailures.OutcomeOfTick | cold_start/cold_start_manager.py:135-215 | every tick of every run fails, stays or goes on exactly as the inputs so far say: ten ticks in a row without data, danger, time over, the gate, thirty stays |
| ColdStartFailures.FailureHasReason | cold_start/warmup_state_machine.py:223-241 | a failed run failed at one tick, for the reason its last record gives, and stays failed |
| ColdStartFailures.FirstGates | cold_start/cold_start_manager.py:61-75 | what leaving BOOTING and FETCHING_MARKET_DATA takes in flags and symbol counts, and the confidence that is recorded |
| ColdStart.WarmupTerminates | cold_start/warmup_state_machine.py:158-221 | whatever the snapshots and the clock, the protocol is over after 186 ticks |
| ColdStartBound.BoundIsReached | cold_start/warmup_state_machine.py:173-184 | some snapshots keep the protocol running for 185 ticks, so the bound is exact |
| ColdStart.RiskGate | cold_start/cold_start_manager.py:83-90 | the risk gate opens only with risk in sync, consistent probation, hard limits kept, positions known and a score of 0.85 or more |
| ColdStart.ShadowGate | cold_start/cold_start_manager.py:92-97 | below ten shadow ticks the gate opens exactly on the ninth with a score of 0.9444 or more |
| ColdStart.ConfidenceIsNumber | cold_start/cold_start_manager.py:53-100 | a confidence is no number exactly in BUILDING_FEATURES without a feature confidence and in STABILIZING_REGIMES without a regime stability |
| ColdStart.LiveReadySkipsNoGate | cold_start/cold_start_manager.py:135-215 | LIVE_READY implies that the six states were left in order through their gates without critical failure; all six thresholds were reached exactly if the feature confidence and the regime stability at the two exits were numbers, the other four always; the risk gate's conditions, and nine shadow ticks or more |
| ColdStart.UnknownValuesPassTheGates | cold_start/warmup_state_machine.py:173-184 | a concrete run without these two values becomes ready past two unmet thresholds, with a score of 1 |
| ColdStart.TenShadowTicksExactly | cold_start/cold_start_manager.py:92-98 | ten or more shadow ticks preceded LIVE_READY exactly if the score of the ninth was below 0.9444 |
| ColdStart.NineShadowTicksCanSuffice | cold_start/warmup_scenarios.py:96-96 | a concrete run reaches LIVE_READY after nine shadow ticks, while the metrics' own live condition is false |

## Left out

- Reading files: descriptors, locks, stat checks, directory scans and bounded reads are inputs of the model.
- Regular expressions: the lexical forms of names, digests, boot ids and codes belong to the reader parameters (`Env.lex`, `FaultEnv.lex`), as do the closed key sets of entries and the check of the lab id before a log is read.
- ProjectLog: the bindings inside an operation beyond those an entry repeats (budget, permissions, items, birth plan) are part of the reader parameter; RecursionError cannot occur below the depth limit and is not modelled.
- ProjectFaultLog: every failure is one corrupt status, and the digest of the whole file in the projection is not carried.
- EventsOf: a line that is canonical JSON but no entry is only reported; the source fails on some of those, and no accepted log has one.
- ReadTable: a claim does not carry the whole operation, only its kind, progress and, for external ones, the child; the comparison of the claims with the quarantine directories is not modelled.
- Json: floats, NaN and infinities are refused as the source refuses them, and have no values in the model.
- CanonicalIsInjective: integers are limited to 128 digits, since the loader that undoes the encoding refuses longer ones.
- AcquireLogs: when several conditions fail, the contract says that the reported one does, not that it is the first in the order of the code; the single limits are one refusal.
- Link: two different entries of the fault log with one digest are excluded by a hypothesis; the canonical bytes of the row carried in a binding are the row itself.
- Structures: the check of one record against its parent is a parameter, with its codes.
- DeriveOperation: the operations' own validation, the selection of the latest attempts, and the comparison of the candidate's own home are inputs, the last one with its contract.
- Decide: the checks of one record against its parent, of one admission, of the plan and of the policy pin are parameters, with their codes; the claimed branch and the nodes are inputs, and `Branches.ParentBranch` reads the nodes.
- ReadNodes: the byte limit that all files of a scan share, and the path of a statement under the digest of its qualification, are not modelled: a home holds the statement that is found.
- CurrentCeilings: the candidate's own home is the only one excluded, and it is not counted among the others; both are what the classification promises, which is not part of this model.
- PopulationPartition: the key of a late descendant's individual record is given as a set.
- SafePath: Python's lower-casing and the lists of forbidden names are parameters.
- ColdStart: finite floats are exact real numbers, so rounding errors, overflow and the failing conversion of an infinity to an integer do not occur; one clock value serves a whole tick, and the constants have their default values; reports, tokens, signatures, persistence, alerts, and `reset` are left out, as is the boundary case of a record closed at clock zero.
- Evaluate: the invariants that read files take the outcome from the snapshot, and which invariants raise is part of the snapshot; an exception is a failed critical result, also for an invariant that only warns.
- The budget totals and the plan comparison of the current population, the checks of generation, budget and permissions, `own_proofs`, `_population_proof`, R8 and C9 pins, trust roots and signatures, the installed trust projection, and the reports of the certification, audit, analysis and deployment packages are not part of this model: they are one-branch comparisons, or outside of the protocols.
