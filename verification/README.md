# Tesera evidence journal: a verified model

Tesera records guarded actions in an append-only, hash-chained and signed journal. This project models the
parts of it that several processes, crashes and tampering make hard, and proves what they promise.

* **Evidence and its writers** (`Evidence`, `Writer`, `JournalContent`, `Facts`, `Recorded`). An event is a map from
  fields to JSON values; the journal is a sequence of events. Hashing is an arbitrary function, taken as injective only
  where a lemma says so; a signature is an arbitrary predicate on key, digest and text.
* **The verifier** (`Verification`, `VerdictMeaning`, `VerdictOfFile`, `Acceptance`, `Tampering`, `Platforms`). The streaming pass and the
  checkpoint witness; what each code and each verdict means, whoever signed; and what they accept when only the honest journal
  was signed: exactly its prefixes, or exactly those reaching past the witness; and a platform on which all that is assumed holds.
* **The reservation protocol** (`Reservation`, `ExactlyOnce`, `Engine`). Any number of guarded calls on one file journal,
  interleaved step by step, stopping anywhere, with operator resolutions at any time.
* **The audit** (`Audit`, `AuditPass`, `AuditMeaning`, `AuditTruth`). The multi-table classifier, on full and on projected events;
  what its report means on any journal, and its agreement with each call's real fate.
* **The idempotency index** (`Idempotency`, `IdempotencyIndex`, `IdempotencyAnswers`, `IdempotencyExact`, `IdempotencyCache`,
  `IdempotencyRuns`, `IndexedProtocol`). Tables that evolve in place and are cached under size and head, against a full rescan.
* **The tail reader** (`TailReader`). The backward doubling window against the forward scan, on bytes.
* **Archives and witnesses** (`ArchiveChain`, `ChainMeaning`, `ArchiveCustody`, `ArchiveHistory`, `ArchiveJournal`, `Witnesses`,
  `Operators`).
  Rotation, custody over many files, pruning of witnesses, and the operator commands.
* **Canonical forms** (`Canonical`, `CanonicalLaws`, `CanonicalWalk`; `JsonText`, `JsonTree`, `JsonRoundTrip`, `JsonOrder`,
  `JsonParser`, `JsonGrammar`, `JsonSyntax`, `JsonPrinted`). The fused redact-and-canonicalize walk over cyclic object graphs,
  and the TypeScript printer and parser of canonical JSON (RFC 8259, sections 2 to 7), against a grammar of concrete syntax.
* **Stateful policies** (`RateLimit`, `RateLimitClock`, `Spending`, `CachedApproval`). The sliding window, the durable budget and the TTL cache.

Where the source changes state, a class or a loop does too, and it is proved equal to a function of its inputs; the lemmas
are about that function. Text that means something to the program (`"decision"`, `"allowed"`, ...) is `Known`, a hash may be
`DigestOf` its payload, any other text is `Other`; `ShowsTexts` says that Python's `str` of a string is the string itself. `dafny verify dfyconfig.toml` checks everything.

Findings about the code, each with an exact condition or a concrete input:

* The index ignores events that the scan reads: untracked decisions that share an id, outcomes and resolutions before
  their decision, and values that are no strings. Both queries are characterised on every journal, and so is exactly when they
  agree with the scan (`BlockingAgreesExactly`, `CompletedAgreesExactly`); four concrete journals tell them apart. Being
  well-formed is enough, and every journal the protocol can reach is (`IndexServesProtocol`).
* The backward reader returns a last line of spaces or tabs as a line; the forward scan skips it. With VT or FF at an end of the
  last line they differ too (`BackwardEqualsForward` is an equivalence).
* The rate limiters read the clock before taking the lock. A stale reading can let a window hold more than `max_calls`, and can
  make the two versions differ. `LimitHoldsExactly`, `FileLimitHoldsExactly` and `VersionsAgreeExactly` say for exactly which
  readings they do not; under every clock the limit holds exactly when it is one (`AnyClockExactly`).
* A string holding the six characters of a line-separator escape is printed as text that no longer parses
  (`StringRoundTrip` is an equivalence).
* A second redaction pass is not the identity when a pattern matches an unsupported-type marker (`SecondPassIsIdentity` is an equivalence).
* A resolution recorded against a call that did succeed leaves the audit asking for reconciliation: its status is then not
  "succeeded" (`TrueStatus` says exactly which status it is).

## Model

| member | source | states |
|---|---|---|
| `Reservation.StepKeeps` | src/tesera/engine.py:496-716 | Every step of every interleaving (begin, pre-check denial, approval, locked decision, return, outcome, completion mark, stop at any point, resolution, maintenance) keeps the protocol invariant |
| `Reservation.UnblockedIsSafe` | src/tesera/engine.py:648-694 | The check made under the file lock refuses exactly what would let a key be reserved while an earlier decision blocks it |
| `Reservation.DecisionStepKeeps` | src/tesera/journal.py:454-511 | The locked check-and-append gives the call its own decision and keeps the invariant, whether it was approved, denied, a dry run or a duplicate |
| `Reservation.OutcomeStepKeeps` | src/tesera/engine.py:791-829 | Appending an outcome gives a decision at most one outcome, with the identity of the call that ran |
| `Reservation.ResolutionStepKeeps` | src/tesera/resolve.py:51-111 | An operator resolution, whatever and whenever, keeps the invariant |
| `Reservation.SucceededCallCompletes` | src/tesera/engine.py:397-399 | A call that succeeded has completed its key in the journal, so marking the in-process set is truthful |
| `ExactlyOnce.InvariantOverRuns` | src/tesera/engine.py:496-716 | The invariant holds at every moment of every run, with any number of calls and processes |
| `ExactlyOnce.JournalsAreProduced` | src/tesera/journal.py:306-315 | The journal of every reachable state was built by honest appends only |
| `ExactlyOnce.DisciplineOverRuns` | src/tesera/resolve.py:51-111 | If `confirmed_not_completed` is recorded only for calls that no longer run, no running call is ever declared not completed |
| `ExactlyOnce.RunningBlocks` | src/tesera/journal.py:649-690 | A running call blocks its key at every position after its decision |
| `ExactlyOnce.NeverBothRunning` | src/tesera/engine.py:643-694 | Mutual exclusion: in a disciplined run two calls with one action and key are never both between their allowed decision and their end |
| `ExactlyOnce.NeverBothSucceeded` | src/tesera/engine.py:350-399 | Exactly once: in a disciplined run two decisions with one action and key never both have a succeeded outcome |
| `ExactlyOnce.NoneExecutesAfterSuccess` | src/tesera/journal.py:649-690 | Once a key has a succeeded outcome, no call with that key is executing then or at any later moment |
| `Platforms.UnblockedCallCanSucceed` | src/tesera/engine.py:330-399 | From every reachable state, a new call that nothing blocks can run to success: the protocol is not safe by never letting anyone execute |
| `AuditTruth.NoKeySucceedsTwice` | src/tesera/audit.py:356-373 | In every run, with no discipline on resolutions, no two decisions with one action and key are both classified as succeeded |
| `AuditTruth.ClaimBlocks` | src/tesera/journal.py:649-690 | A decision the audit classifies as succeeded blocked every later reservation of its key |
| `AuditTruth.OnlyConflictsReported` | src/tesera/audit.py:207-373 | The audit of a reachable journal reports nothing but conflicting resolutions |
| `AuditTruth.StatusIsTrue` | src/tesera/audit.py:313-352 | The audited status of a call is its true fate: denied, dry run, succeeded, failed, no outcome, or what the latest resolution adds |
| `AuditTruth.AuditTellsTheTruth` | src/tesera/audit.py:177-396 | At every moment of every run the journal verifies, the audit reports only conflicting resolutions, every decided call is audited, and every invocation belongs to exactly one call, tells its fate, and shows the contract of the call, its own decision event and the one outcome that refers to it |
| `Engine.SealedIsWritten` | src/tesera/engine.py:766-788 | An event built under the lock from a fresh id, a trusted key and a signature that checks is a legal append to the journal as it stands |
| `Recorded.DecisionSpeaks` | src/tesera/engine.py:619-641 | An honestly written decision event carries the verdict, the action, its contract hash, risk and approval mode, the input summary and hash, the key, the dry-run mark and the details of its command |
| `Recorded.OutcomeSpeaks` | src/tesera/engine.py:810-829 | An honestly written outcome event carries the status, the decision it belongs to, the identity of the action, the receipt and the details of its command |
| `Engine.World.Others` | src/tesera/engine.py:496-716 | Whatever other processes do between two steps, the call itself stays where it is and the journal only grows |
| `Engine.PreCheck` | src/tesera/engine.py:562-601 | The best-effort pre-check turns a call away exactly when this process remembers the key or the unlocked look sees a prior; one denied decision is then recorded, naming the prior, or nothing if its append fails, and the caller is told which |
| `Engine.NoticeCompleted` | src/tesera/engine.py:574-582 | A completion that the unlocked look finds is remembered by the process, and nothing else changes |
| `Engine.DuplicateMeans` | src/tesera/engine.py:648-656 | A call is a duplicate under the lock exactly when some earlier decision blocks its key or its process remembers the key; the prior named is the earliest that blocks |
| `Engine.DecideCall` | src/tesera/engine.py:643-714 | Nothing changes when the append fails; otherwise it is a duplicate exactly when the locked check finds one, the call is executing, dry-run or denied accordingly, and the event at the end of the file records that verdict, the request and the prior it duplicates |
| `Engine.Settle` | src/tesera/engine.py:643-714 | The check under the lock, the decision event and the answer: denied exactly when the provider said no or the key was taken |
| `Engine.RunCallable` | src/tesera/engine.py:367-399 | Once nothing stands in the way: the callable ends once, as it ends; the outcome, the answer and the mark follow |
| `Engine.MarkCompletedCall` | src/tesera/engine.py:397-399 | The process remembers the key, keeps its other keys as far as the cap leaves room, and no other process learns of it |
| `Engine.RecordOutcomeOrRaise` | src/tesera/engine.py:791-867 | The outcome is recorded, with its status, its details and a receipt exactly when the callable succeeded and gave one; or it is recorded and a failing witness sink is reported; or nothing is, and the evidence is reported incomplete; only in the first case may the key be marked |
| `Engine.Authorize` | src/tesera/engine.py:603-716 | Approval and the decision: the call goes ahead exactly after an approval, a durable and shipped decision, no duplicate under the lock and no dry run; a provider that says no means a denied event; every other answer has its exact condition too |
| `Engine.PrepareExecution` | src/tesera/engine.py:496-716 | A contract error leaves everything as it was; otherwise the callable is reached exactly when nothing stops it, and what is told, what became of the call and what is on record follow from what each step found |
| `Engine.ExecuteSync` | src/tesera/engine.py:330-399 | A whole guarded call: only an approved call executes, an approved call that nothing stops does, once; each answer and each fate exactly under its own condition; the decision and the outcome on record say what happened; a returned result means that the key is remembered |
| `Idempotency.BlockingPriorFromState` | src/tesera/journal.py:649-690 | Returns the first candidate that blocks, and none before it does |
| `Idempotency.BlockingMeansBlocks` | src/tesera/journal.py:668-689 | The branch rule on one decision and its links decides exactly what the journal says: succeeded, or without outcome and not released by its latest resolution |
| `Idempotency.FirstCandidateBlocks` | src/tesera/journal.py:664-690 | The first blocking candidate is the earliest blocking decision of the journal |
| `Idempotency.ScanState` | src/tesera/journal.py:700-726 | One scan leaves the first decision per id, in order, and every link of every id |
| `Idempotency.ScanBlockingIdempotent` | src/tesera/journal.py:693-730 | On every journal, well-formed or not, the scan names the earliest decision that blocks the key |
| `IdempotencyIndex.LinkEvolves` | src/tesera/journal.py:212-227 | What evolving keeps of an outcome or resolution is what the journal says about a tracked decision |
| `IdempotencyIndex.EvolvedStaysExact` | src/tesera/journal.py:190-227 | Evolving the tables by one event keeps them exact on a well-formed journal |
| `IdempotencyIndex.RebuiltIsExact` | src/tesera/journal.py:230-251 | A rebuild from a well-formed journal tracks every reservation and everything linked to it |
| `IdempotencyAnswers.IndexedBlockingPrior` | src/tesera/journal.py:772-786 | The indexed blocking query replays the rule over the candidates of one key |
| `IdempotencyAnswers.IndexedCompletedPrior` | src/tesera/journal.py:758-769 | The indexed completed query returns the first candidate with a succeeded outcome |
| `IdempotencyAnswers.ScanCompletedIdempotent` | src/tesera/journal.py:587-646 | The completed scan returns, for the first id that completes, the last decision recorded under it |
| `IdempotencyAnswers.BlockingIndexEqualsScan` | src/tesera/journal.py:772-786 | Exact tables and the full scan name the same blocking decision on a well-formed journal |
| `IdempotencyAnswers.CompletedIndexEqualsScan` | src/tesera/journal.py:758-769 | Exact tables and the completed scan stop at the same place of the journal when no dry run has an outcome |
| `IdempotencyAnswers.CompletedAnswersAgree` | src/tesera/journal.py:587-646 | On exact tables the indexed completed query returns the very event the completed scan returns |
| `IdempotencyAnswers.CompletedIndexOfRebuilt` | src/tesera/journal.py:758-769 | A rebuild answers the completed query as the completed scan does |
| `IdempotencyAnswers.IndexEqualsScan` | src/tesera/journal.py:736-786 | A rebuild answers the blocking query as a scan does |
| `IdempotencyAnswers.SharedIdsDisagree` | src/tesera/journal.py:190-211 | A denied decision sharing its id makes index and scan differ |
| `IdempotencyAnswers.EarlyOutcomesDisagree` | src/tesera/journal.py:212-227 | An outcome before its decision makes index and scan differ |
| `IdempotencyAnswers.OddStatusesDisagree` | src/tesera/journal.py:212-227 | An outcome status that is no string makes index and scan differ |
| `IdempotencyAnswers.DryOutcomesDisagree` | src/tesera/journal.py:587-646 | An outcome of a dry run completes the key for the scan only |
| `IdempotencyExact.KeptRebuildsTheSame` | src/tesera/journal.py:190-251 | Blanking out every event that the index ignores leaves every rebuild as it is |
| `IdempotencyExact.KeptIsWellFormed` | src/tesera/journal.py:190-227 | What the index keeps of any journal is well-formed |
| `IdempotencyExact.IndexAnswersKept` | src/tesera/journal.py:772-786 | On every journal the index answers as a scan of what it keeps |
| `IdempotencyExact.IndexBlocksWhen` | src/tesera/journal.py:772-786 | When the index blocks on a decision, told from the events alone: first tracked under its id, and a success after it, or neither an outcome nor a release after it |
| `IdempotencyExact.MisjudgedMeans` | src/tesera/journal.py:649-690 | Index and scan judge a decision differently exactly when an untracked decision hides it from the scan, or an outcome or a resolution that the index drops makes the difference |
| `IdempotencyExact.BlockingAgreesExactly` | src/tesera/journal.py:693-786 | On every journal both name the same blocking decision exactly when none up to the one that the scan names is misjudged |
| `IdempotencyExact.AnsweredExactly` | src/tesera/journal.py:789-810 | So the check under the lock names the decision that the scan would name exactly then |
| `IdempotencyExact.WellFormedForAgrees` | src/tesera/journal.py:789-810 | It is enough that the reservations of the queried action and key come first under their ids, before what refers to them, with string values |
| `IdempotencyExact.SharedDeniedIdsAgree` | src/tesera/journal.py:190-211 | Two denied decisions under one id are not well-formed, and yet no key tells index from scan |
| `IdempotencyExact.IndexReturnsPlace` | src/tesera/journal.py:758-769 | On every journal the indexed completed query returns the event of the first decision tracked for the key with a success after it |
| `IdempotencyExact.CompletedAgreesExactly` | src/tesera/journal.py:587-646 | On every journal both completed queries return the decision at the same place exactly when the scanned one is no dry run, first tracked under its id, with a success after it, and no such decision stands before |
| `IdempotencyExact.ScanReturnsPlace` | src/tesera/journal.py:587-646 | On a well-formed journal without outcomes of dry runs the completed scan returns what the index returns |
| `IdempotencyCache.IdemTables.Evolve` | src/tesera/journal.py:190-227 | The in-place update of the tables is the pure one |
| `IdempotencyCache.CollectIdemTables` | src/tesera/journal.py:230-251 | A collection scan returns fresh tables equal to a rebuild from all events of the file |
| `IdempotencyCache.MatchingHeadMeansFresh` | src/tesera/journal.py:262-285 | A matching head proves that tables built from other hash-chained content hold the payloads of this content, under any foreign append or replacement |
| `IdempotencyCache.MatchingHeadAnswers` | src/tesera/journal.py:736-786 | Tables filed under a matching head answer the blocking query as a rebuild from the present file does, well-formed or not |
| `IdempotencyCache.MatchingHeadCompletes` | src/tesera/journal.py:736-769 | They answer the completed query likewise: with a decision of the same payload |
| `IdempotencyCache.SameKept` | src/tesera/journal.py:190-227 | The index keeps the same of files that hold the same payloads |
| `IdempotencyCache.IdemCache.Cached` | src/tesera/journal.py:262-268 | Tables come back exactly when they are filed under this size and head |
| `IdempotencyCache.IdemCache.Publish` | src/tesera/journal.py:254-259 | Files tables under the path and keeps exactly the newest paths up to the cap; no other slot changes |
| `IdempotencyCache.IdemCache.Evict` | src/tesera/journal.py:258-259 | Evicts the oldest paths past the cap, and no other |
| `IdempotencyCache.IdemCache.NoteAppend` | src/tesera/journal.py:813-855 | After an own append a slot survives exactly if it was filed under the size and head just before and the event carries a hash, and then it describes the file after it |
| `IdempotencyCache.FileJournal.TablesNow` | src/tesera/journal.py:789-806 | The tables used under the lock equal a rebuild of the present file, cached or not |
| `IdempotencyCache.FileJournal.LockedBlockingPriorId` | src/tesera/journal.py:789-810 | The check under the lock answers, on every hash-chained file, what the index of that very file or the scan answers, whatever was cached |
| `IdempotencyCache.FileJournal.AppendEvent` | src/tesera/journal.py:350-389 | Appends exactly the event built on the tail hash, or nothing, and keeps the cache sound |
| `IdempotencyCache.FileJournal.AppendCheckpoint` | src/tesera/journal.py:391-434 | The builder gets the number of events and the head of the very file it extends |
| `IdempotencyCache.FileJournal.FindCompleted` | src/tesera/journal.py:587-646 | The unlocked completed query returns what the scan returns or what the index of this very content returns |
| `IdempotencyCache.FileJournal.FindBlocking` | src/tesera/journal.py:858-912 | The unlocked blocking query likewise |
| `IdempotencyCache.FileJournal.AppendEventAtomic` | src/tesera/journal.py:454-511 | The builder is told, under the lock of the append, which decision of this very file blocks the key |
| `IdempotencyRuns.Perform` | src/tesera/journal.py:350-511 | One append here or elsewhere, one replaced file or one query keeps the cache sound for every file, and a check answers for the content of that moment |
| `IdempotencyRuns.Serve` | src/tesera/journal.py:736-855 | Over every history of own appends, foreign appends, replaced files and queries on any number of files, every check answered for the content of its moment |
| `IdempotencyRuns.MatchingSlotIsFresh` | src/tesera/journal.py:262-285 | At every moment a slot that matches size and head holds the tables a fresh rebuild would give |
| `IndexedProtocol.IndexServesProtocol` | src/tesera/journal.py:789-810 | At every moment of every run the file is chained and well-formed, and the check under the lock, indexed or not, names exactly the decision that the protocol checks for |
| `IndexedProtocol.ReachableHasNoDryOutcomes` | src/tesera/engine.py:366-367 | No reachable journal holds an outcome for a dry run |
| `TailReader.ReadLastLine` | src/tesera/journal.py:520-554 | The doubling window ends on every file, for every positive start, with the last line: after the last newline before the trailing line ends, and without them; none exactly when the file holds only line ends |
| `TailReader.ReadLastLineScan` | src/tesera/journal.py:917-937 | The forward scan ends with the last line that is not blank, without the white space around it; none exactly when all is blank |
| `TailReader.SuffixAgrees` | src/tesera/journal.py:532-552 | Trimming and searching a suffix finds the same place as in the whole file |
| `TailReader.BackwardEqualsForward` | src/tesera/journal.py:520-554 | For every content: both readers find the same line, up to JSON white space, exactly when the last line is clean |
| `TailReader.PlainContentAgrees` | src/tesera/journal.py:520-554 | Without VT and FF and without a blank last line, both always agree |
| `TailReader.SameParse` | src/tesera/journal.py:557-568 | A parser that ignores JSON white space gives the same answer from both |
| `TailReader.BlankLastLineDiffers` | src/tesera/journal.py:520-554 | A last line of spaces is a line backward and none forward |
| `Evidence.HeadDeterminesPayloads` | src/tesera/journal.py:296-315 | With an injective hash, two chained files with the same head hold the same payloads |
| `Writer.ProducedIsChained` | src/tesera/journal.py:350-434 | Honest appends keep the file hash-chained |
| `Writer.ProducedIdsDistinct` | src/tesera/journal.py:292-293 | No two events of an honest journal share an id |
| `Writer.FinalizeSeals` | src/tesera/journal.py:306-315 | Sealing keeps the payload readable and stores its hash |
| `Verification.ReadAndVerify` | src/tesera/verification.py:229-343 | The streaming loop, holding only a hash, counters, checkpoints and what is retained, gives the verdict and the retained events of the whole-list definition |
| `Verification.PassStep` | src/tesera/verification.py:255-318 | What one more event does to all the pass carries |
| `VerdictMeaning.CodesExactly` | src/tesera/verification.py:521-809 | Each of the codes, shape by shape, is reported of an event exactly when its condition holds, told from the events and their places |
| `VerdictMeaning.CodesInOrder` | src/tesera/verification.py:521-809 | The codes of an event come in one fixed order, each once |
| `VerdictMeaning.RememberedMeans` | src/tesera/verification.py:315-321 | The checkpoints the pass remembers are the last ones under their ids |
| `VerdictOfFile.ValidGuarantees` | src/tesera/verification.py:229-343 | Whoever signed: in a valid file every event is sound where it stands: chained, hashed and signed by a trusted key; a countersignature names an earlier checkpoint, the last under its id, with the same count and head; resolutions, receipts, archive links and rotations are well-formed, and an archive event stands first |
| `VerdictOfFile.ValidExactly` | src/tesera/verification.py:229-343 | Without a witness: valid exactly when every line parses, every event is sound and the newest checkpoint commits to no more events than there are |
| `VerdictOfFile.ValidWithWitnessExactly` | src/tesera/verification.py:346-518 | With a witness: valid exactly when, besides, the witness is acceptable, an event has its id, and it commits to no more events than there are |
| `VerdictOfFile.WitnessExactly` | src/tesera/verification.py:346-462 | A file is an acceptable witness exactly when, chain position aside, nothing is wrong with it as a checkpoint event |
| `VerdictOfFile.CoverageExactly` | src/tesera/verification.py:465-518 | Not found exactly when the witness is not among the events; truncated exactly when the newest checkpoint or the witness commits to more events than there are |
| `VerdictOfFile.IssuesExactly` | src/tesera/verification.py:229-343 | The issues of a verdict, exactly: line by line those of the event standing there, the first line that does not parse, and on line 0 those of the witness and of coverage |
| `VerdictOfFile.IssuesInOrder` | src/tesera/verification.py:229-343 | Issues come in the order of their lines, those of coverage last |
| `VerdictOfFile.VerifiedExactly` | src/tesera/verification.py:229-343 | The events called verified are the sound ones |
| `Acceptance.ValidMeans` | src/tesera/verification.py:318-343 | The verdict is favourable exactly when no check reports anything |
| `Acceptance.PredecessorFixesPosition` | src/tesera/verification.py:768-789 | The predecessor hash of an event of the journal fixes its position |
| `Acceptance.WrittenPasses` | src/tesera/verification.py:521-809 | An honestly written event of any kind, and any copy of it, passes every check where it stands |
| `Acceptance.CheckpointCounts` | src/tesera/checkpoint.py:62-78 | A produced checkpoint counts the events before it and names their head |
| `Acceptance.CleanExactlyCopies` | src/tesera/verification.py:521-809 | Event by event the checks pass exactly on copies of a prefix of the journal |
| `Acceptance.AcceptsExactlyPrefixes` | src/tesera/verification.py:229-343 | A file is accepted exactly when every line parses and its events copy a prefix of the one honest journal |
| `Acceptance.ProducedVerifies` | src/tesera/verification.py:229-343 | The file of an honest journal is always accepted |
| `Acceptance.CoverageMeans` | src/tesera/verification.py:465-518 | The coverage check is silent exactly when the file reaches past the witnessed checkpoint |
| `Acceptance.WitnessFixesCheckpoint` | src/tesera/verification.py:346-462 | A witness is a copy of only one checkpoint |
| `Acceptance.AcceptsExactlyPrefixesPast` | src/tesera/verification.py:346-518 | With a witness: accepted exactly when it is a genuine checkpoint of the journal and the file is a prefix reaching past it |
| `Platforms.SymbolicIsInjective` | src/tesera/journal.py:301-303 | An injective hash exists: the one that stands for its payload |
| `Platforms.EveryJournalCanBeGuarded` | src/tesera/verification.py:790-808 | For every honest journal there is a platform on which its events are all that was ever signed |
| `Platforms.WitnessedJournal` | src/tesera/verification.py:346-518 | One platform and journal meet all assumptions at once; the journal verifies against its checkpoint and its truncation does not |
| `Tampering.ReportMeans` | src/tesera/verification.py:255-318 | An issue on a line is what is wrong with the event standing there |
| `Tampering.ChainBreakMeans` | src/tesera/verification.py:768-778 | A chain break is reported exactly for a well-formed event that names another predecessor |
| `Tampering.EditIsReportedInPlace` | src/tesera/verification.py:768-789 | Changing one payload under its stored hash is reported on that line, and no other line reports a chain break |
| `Tampering.ResealedEditBreaksNextLink` | src/tesera/verification.py:301-314 | With the hash recomputed the next line reports the chain break, and only these two lines can |
| `ArchiveChain.VerifyArchiveChain` | src/tesera/archive.py:45-188 | The loop over files gives the report of the recursive walk |
| `ArchiveChain.FollowLink` | src/tesera/archive.py:117-185 | One link is followed exactly when its target, count and head are what the archive event committed to |
| `ChainMeaning.ReportExactly` | src/tesera/archive.py:45-188 | The whole report from the lines of the files: every file checked verifies and commits by name, count and head to the next; valid exactly when the last one verifies and starts with no link; otherwise the one issue is why the walk cannot go on, each code with its exact condition |
| `ChainMeaning.WalkMeans` | src/tesera/archive.py:62-96 | The same from any file on, whatever was seen before |
| `ArchiveCustody.VerifiedIsIntact` | src/tesera/archive.py:83-93 | A verified file is hash-chained content |
| `JournalContent.TailMeans` | src/tesera/journal.py:557-568 | The tail is read off the last line that is not blank: its hash, a refusal, or an error no caller expects |
| `ArchiveCustody.HeadFixesTheWholeChain` | src/tesera/archive.py:45-188 | Two accepted chains with the same live head hold the same payloads in every file, under the same archived names |
| `ArchiveHistory.WalkOverChain` | src/tesera/archive.py:45-188 | On a linked chain the walk accepts exactly when it may follow every link, and then has checked every file |
| `ArchiveHistory.HistoryKeepsCustody` | src/tesera/archive.py:201-286 | After any history of appends and rotations the directory holds the whole linked chain |
| `ArchiveHistory.HistoryIsAccepted` | src/tesera/archive.py:45-188 | Any history is accepted exactly when it made no more rotations than the walk may follow, and every file of it is then checked |
| `ArchiveHistory.WalkAfterPruning` | src/tesera/archive.py:76-82 | With archives deleted, the walk over a chain accepts exactly when none of them belongs to it and every link may be followed |
| `ArchiveHistory.PrunedHistoryIsAccepted` | src/tesera/archive.py:333-346 | A pruned history is accepted exactly when no archive of it was deleted and it is not too long |
| `ArchiveJournal.JournalDirectory.ArchiveStats` | src/tesera/journal.py:436-452 | Count and head of a file; opening it creates it; unreadable tails fail |
| `ArchiveJournal.JournalDirectory.Claim` | src/tesera/archive.py:293-313 | Claims the first candidate name that no file has; the loop ends |
| `ArchiveJournal.JournalDirectory.Archive` | src/tesera/archive.py:201-286 | At every exit, killed or failing anywhere, the old lines are kept under the live or the claimed name and no other file changed; untroubled, it rotates; each refusal exactly when it is due |
| `ArchiveJournal.JournalDirectory.Rename` | src/tesera/archive.py:225-274 | From the rename on: a successor linked to what the archived file holds, or a rollback, or both files intact |
| `ArchiveJournal.JournalDirectory.PruneArchives` | src/tesera/archive.py:333-346 | Deletes exactly the oldest archives beyond the newest `keep`, as far as they can be deleted |
| `ArchiveJournal.JournalDirectory.ArchiveAndPrune` | src/tesera/archive.py:213-286 | Refuses a bad `keep` before anything else; after a rotation deletes and returns exactly the archives older than the newest `keep` that can be deleted, and keeps every other file with its content; otherwise prunes nothing |
| `ArchiveJournal.JournalDirectory.Start` | src/tesera/archive.py:249-274 | The successor starts with the archive event, or is left alone when someone wrote there first |
| `ArchiveJournal.QuiescedIsMove` | src/tesera/archive.py:201-286 | A rotation that nothing raced with is a move of the custody history |
| `Witnesses.WitnessDirectory.PruneWitnesses` | src/tesera/witness.py:211-281 | Refuses a bad `keep`, a missing path, a path that is no directory and one that cannot be listed; otherwise deletes exactly the deletable regular witnesses with at least `keep` newer ones, and reports what it kept, deleted and could not delete |
| `Witnesses.SortedIsOrdered` | src/tesera/witness.py:247-263 | The candidates are ranked by time, then name |
| `Witnesses.VictimsExactly` | src/tesera/witness.py:259-265 | A witness is doomed exactly when at least `keep` regular ones are newer, by time and then by name; `latest.checkpoint` never is |
| `Witnesses.NameLessMeans` | src/tesera/witness.py:240-259 | Names are compared at their first difference, and a prefix comes first |
| `Witnesses.NewerSubsumesOlder` | src/tesera/witness.py:211-281 | What verifies against a newer genuine witness verifies against every older one |
| `Witnesses.PruningKeepsTheBound` | src/tesera/witness.py:211-281 | The newest witness survives, and whatever verifies against it verifies against every deleted genuine witness |
| `Witnesses.AuditWitnesses` | src/tesera/witness.py:154-202 | One status per shipped witness, in order of name: covered exactly when the file verifies against it, its count, and its first issue; a directory that cannot be listed is never clean |
| `Witnesses.CleanWitnessAuditMeans` | src/tesera/witness.py:144-202 | Clean exactly when there is a witness and the file verifies against each |
| `Witnesses.CleanWitnessAuditReaches` | src/tesera/witness.py:154-202 | Clean exactly when every witness is genuine and the file copies a prefix reaching past all of them |
| `Operators.FindDecision` | src/tesera/resolve.py:114-134 | The first decision event under an id, skipping lines that do not parse |
| `Operators.ResolveJournal` | src/tesera/resolve.py:51-111 | Each refusal exactly when it is due; otherwise one event that says which action, decision and value it resolves, with the note cut to length; honest if the signer is |
| `Operators.CheckpointJournal` | src/tesera/checkpoint.py:43-88 | Appends a checkpoint that commits to the count and head of the file as it stands, and ships that event as the witness |
| `Operators.NewestCheckpoint` | src/tesera/cosign.py:104-121 | The last checkpoint event of the file |
| `Operators.NewestMeans` | src/tesera/cosign.py:104-121 | That is the last event of the kind |
| `Operators.BuildReads` | src/tesera/engine.py:766-788 | An event built on the tail says what it was built from, by whom, when, and on which predecessor |
| `Operators.CountersignJournal` | src/tesera/cosign.py:50-101 | Appends a countersignature of the newest checkpoint seen before the append, repeating its count and head, whatever others append before or after it, and sets the warning as the second lookup says |
| `Operators.CountersignedIsWritten` | src/tesera/cosign.py:74-88 | With an honest signer that is a step of the honest writer |
| `Operators.SupersededMeans` | src/tesera/cosign.py:90-101 | The warning is given exactly when others added a checkpoint between the lookup and the append, or between the append and the second lookup |
| `AuditPass.Link` | src/tesera/audit.py:186-205 | The linking loop fills the tables of decisions, outcomes and resolutions and reports repeated event ids |
| `AuditPass.Classify` | src/tesera/audit.py:310-352 | What each status takes, whatever the order of the branches; for instance succeeded exactly with an allowed decision, a sole succeeded outcome and no resolution |
| `AuditPass.ReportedExactly` | src/tesera/audit.py:260-296 | Each code is reported of an outcome exactly when it applies: its place, its decision, its identity, its status |
| `AuditPass.ReportOutcome` | src/tesera/audit.py:260-296 | Silent exactly when the outcome follows an allowed decision of the same action with a legal status |
| `AuditPass.AuditInvocations` | src/tesera/audit.py:298-394 | The last loop builds every invocation in order and reports reused idempotency keys |
| `AuditPass.AuditVerifiedSnapshot` | src/tesera/audit.py:177-396 | The loops over the tables together give the report defined on the facts; an unverified snapshot is refused |
| `AuditPass.ReportResolutions` | src/tesera/audit.py:207-237 | Orphan, conflicting and early resolutions of one decision id |
| `AuditPass.VerifiedIsAuditable` | src/tesera/audit.py:177-206 | After verification no unguarded lookup of the audit can fail |
| `AuditPass.ProjectionKeepsFacts` | src/tesera/audit.py:147-155 | The projection keeps every fact the audit reads |
| `AuditPass.StreamingEqualsFull` | src/tesera/audit.py:107-174 | Auditing the projected events of a verified file gives the identical report, issues in the same order |
| `AuditPass.AuditJournal` | src/tesera/audit.py:107-174 | Streaming or full: the limit refuses exactly a journal of more lines, an unverified journal is refused with its first issue, and otherwise the report is the one defined on the facts |
| `AuditMeaning.ReportExactly` | src/tesera/audit.py:177-396 | On any journal an issue is reported exactly when it is deserved, each code with its own condition on the events |
| `AuditMeaning.StatusExactly` | src/tesera/audit.py:310-352 | The status of an audited decision on any journal, told from the events alone |
| `AuditMeaning.InvocationShows` | src/tesera/audit.py:375-394 | An invocation shows the fields of its decision event, each in its place, and those of its only outcome |
| `AuditMeaning.InvocationsExactly` | src/tesera/audit.py:186-205 | One invocation for every audited decision, in file order |
| `Canonical.RaisesExactlyOnBadPaths` | src/tesera/canonical.py:225-293 | The walk ends on every graph and raises exactly when some path past no redacted field revisits a container, goes deeper than 64 or reaches a non-finite float |
| `CanonicalLaws.CanonicalIsRendering` | src/tesera/canonical.py:225-293 | It returns a tree exactly when that tree renders the value within the depth limit |
| `CanonicalLaws.RenderingIsUnique` | src/tesera/canonical.py:225-293 | A value has at most one rendering |
| `CanonicalLaws.SensitiveValuesDoNotShow` | src/tesera/canonical.py:262-283 | Noninterference: inputs that differ only under sensitive names, and in sharing, both raise or give the same canonical value |
| `CanonicalLaws.OutputIsRedacted` | src/tesera/canonical.py:262-283 | No sensitive name in the output holds anything but the marker, at any level |
| `CanonicalLaws.SecondPassIsIdentity` | src/tesera/canonical.py:186-205 | A second pass changes nothing exactly when no pattern matches a text of the output other than the redaction marker |
| `CanonicalLaws.SecondPassChangesNothing` | src/tesera/canonical.py:186-205 | A second pass changes nothing when no pattern matches a marker |
| `CanonicalLaws.MatchedMarkerIsReplaced` | src/tesera/canonical.py:239-242 | A pattern matching an unsupported-type marker makes a second pass replace it |
| `CanonicalWalk.Descend` | src/tesera/canonical.py:225-293 | The walk with its shared list gives the pure result and appends the removed texts in order |
| `CanonicalWalk.CanonicalizeAll` | src/tesera/canonical.py:186-205 | The entry point returns the canonical value; the removed texts are exactly those that a pattern matches or that stand under a sensitive name, on some path the walk takes |
| `CanonicalWalk.RemovedExactly` | src/tesera/canonical.py:208-242 | What a successful walk removes is exactly what it can reach and hides: texts that a pattern matches, and the texts of values under sensitive names, a string as it is and any other value as `str` shows it |
| `JsonText.HexRoundTrip` | ts/src/Canonical.ts:36-39 | A unicode escape reads back as its unit |
| `JsonText.ReplaceWrites` | ts/src/Canonical.ts:36-39 | One replacement over the written string replaces exactly the literals of the string, each behind the backslash that escaped its own |
| `JsonText.StringRoundTrip` | ts/src/Canonical.ts:36-39 | An escaped string reads back as itself, unless it holds the text of a separator escape: then it does not read at all |
| `JsonRoundTrip.NumberReads` | ts/src/Canonical.ts:102-107 | An integer token reads back, whatever may follow it |
| `JsonRoundTrip.ObjectPrints` | ts/src/Canonical.ts:164-179 | An object prints its fields in key order |
| `JsonRoundTrip.ValueReads` | ts/src/Canonical.ts:77-162 | A printed value reads back, leaving what follows it, or not at all |
| `JsonRoundTrip.RoundTrip` | ts/src/Canonical.ts:69-179 | Parsing consumes all of the printed text and returns the tree exactly when no string or key holds the literal text of a separator escape |
| `JsonOrder.SamePrints` | ts/src/Canonical.ts:164-179 | Key insertion order never matters for the printed text |
| `JsonOrder.ReprintsTheSame` | ts/src/Canonical.ts:69-179 | Parsing the printed text gives the same tree, and printing that gives the same text |
| `JsonParser.Parser.ParseValue` | ts/src/Canonical.ts:77-88 | The parser with its moving position does what reading a prefix does |
| `JsonParser.Parser.ParseObject` | ts/src/Canonical.ts:130-157 | Objects, their separators and repeated keys |
| `JsonParser.ParseRaw` | ts/src/Canonical.ts:69-162 | The entry point accepts exactly the texts that spell a syntax tree with white space around it, as what that tree means |
| `JsonGrammar.NumeralIsRead` | ts/src/Canonical.ts:102-107 | Every numeral of the grammar is read whole |
| `JsonGrammar.UnitsAreSpelled` | ts/src/Canonical.ts:94-101 | Whatever is read as a string was written by pieces of the grammar, with that meaning |
| `JsonSyntax.ValueIsRead` | ts/src/Canonical.ts:77-157 | Every syntax tree is read as what it means, leaving what follows |
| `JsonSyntax.ValueIsSpelled` | ts/src/Canonical.ts:77-157 | Whatever is read was written by a syntax tree of that meaning |
| `JsonSyntax.ParsesExactly` | ts/src/Canonical.ts:69-162 | Parsing accepts a text exactly when some syntax tree, with white space around it, is written like that; trailing data, stray commas and bad escapes never are |
| `JsonSyntax.SettingKnown` | ts/src/Canonical.ts:145 | A repeated key keeps its place and gets the new value |
| `JsonSyntax.SettingNew` | ts/src/Canonical.ts:145 | A new key goes to the end, and `__proto__` sets nothing |
| `JsonPrinted.StringIsLeast` | ts/src/Canonical.ts:36-39 | A printed string escapes quotes, backslashes, controls and lone surrogates, by a letter where there is one, and nothing else |
| `JsonPrinted.PrintIsCompact` | ts/src/Canonical.ts:164-179 | The printed text of a tree spells it with no white space, with keys that ascend by code unit, integers as they were and nothing escaped that need not be |
| `JsonPrinted.NumbersPrint` | ts/src/Canonical.ts:167-171 | Integers are printed as they were written, other numbers as Python prints the float |
| `JsonPrinted.MarkersPrint` | ts/src/Canonical.ts:61-62 | An object that looks like a number marker is printed as its number |
| `RateLimit.RateLimitProvider.Decide` | src/tesera/policy.py:150-162 | Pops the expired attempts, then allows and records unless full |
| `RateLimit.FileRateLimitProvider.Decide` | src/tesera/policy.py:683-722 | The same on a state file; corrupt or unwritable state denies and changes nothing |
| `RateLimit.PopKeepsLive` | src/tesera/policy.py:150-155 | On attempts in order, popping from the front keeps exactly what filtering keeps |
| `RateLimit.WindowsHoldAtMostMaxCalls` | src/tesera/policy.py:150-162 | Over every run with a clock that does not go back, every window holds at most `max_calls` allowances |
| `RateLimit.DeniedExactlyWhenFull` | src/tesera/policy.py:150-162 | An attempt is denied exactly when the window ending with it is full |
| `RateLimit.FileRunsAlike` | src/tesera/policy.py:683-722 | The file version keeps the same attempts and takes the same decisions as a deque that never saw the decisions whose replace failed |
| `RateLimit.FileWindowsHold` | src/tesera/policy.py:683-722 | In the file version too every window holds at most `max_calls` allowances, whichever replaces fail |
| `RateLimit.StaleClockOverAllows` | src/tesera/policy.py:150-162 | With one stale clock reading three allowances fall into a window that should hold two: the clock is read before the lock is taken |
| `RateLimitClock.DequeStaysWithin` | src/tesera/policy.py:150-162 | Every run stays within the limit if no reading relapses: none falls back to within a window of an attempt that an earlier reading saw expired |
| `RateLimitClock.FileStaysWithin` | src/tesera/policy.py:683-722 | The durable limit likewise, whichever replaces fail |
| `RateLimitClock.LimitHoldsExactly` | src/tesera/policy.py:150-162 | For given readings, however many attempts each of them sees: the limit holds exactly when it is one or no reading relapses |
| `RateLimitClock.FileLimitHoldsExactly` | src/tesera/policy.py:683-722 | The durable limit holds exactly then too |
| `RateLimitClock.AnyClockExactly` | src/tesera/policy.py:150-162 | The limit holds under every clock exactly when it is one |
| `RateLimitClock.PopKeepsLiveExactly` | src/tesera/policy.py:150-155 | Popping keeps what filtering keeps exactly when no expired attempt stands behind a live one |
| `RateLimitClock.VersionsAgreeExactly` | src/tesera/policy.py:683-722 | Both versions keep the same attempts exactly when the limit is one or no reading finds an attempt live and a later one expired |
| `RateLimit.StaleClockSplitsTheVersions` | src/tesera/policy.py:683-722 | Out of order, the deque keeps an expired attempt that the file version drops |
| `Spending.ResolveSpend` | src/tesera/engine.py:308-327 | Refuses exactly the extractor errors, the non-integers and the negative amounts |
| `Spending.SpendingBudgetProvider.Decide` | src/tesera/policy.py:743-770 | Allows exactly a declared spend that still fits, to the last cent, and charges it |
| `Spending.FileSpendingBudgetProvider.Decide` | src/tesera/policy.py:790-855 | The same on a state file; corrupt or unwritable state denies and changes nothing |
| `Spending.ChargeMeans` | src/tesera/policy.py:743-770 | A charge raises the total it counts against by the spend, and touches no other |
| `Spending.DecidesExactly` | src/tesera/policy.py:817-848 | Under the lock a reader may replace exactly when the spend fits, and may deny exactly when it does not |
| `Spending.LocksStayExclusive` | src/tesera/policy.py:801-806 | Only the lock holder is between reading and replacing, and what it read is on disk |
| `Spending.StepKeeps` | src/tesera/policy.py:790-855 | Every step of every process, crashes included, keeps the budget invariant |
| `Spending.SpendIsConserved` | src/tesera/policy.py:790-855 | In every interleaving: returned allowances spend at most the persisted total, which is at most `max_cents`, overall or per action |
| `Spending.ExactOverRuns` | src/tesera/policy.py:790-855 | While nobody crashes the totals are exactly what was handed out and what is about to be |
| `Spending.DeniedOnlyWhenSpent` | src/tesera/policy.py:790-855 | While nobody crashes a call is denied only when what was handed out, and it, exceed the budget |
| `Spending.CrashOverstates` | src/tesera/policy.py:492-515 | A crash after the replace leaves a charge no allowance accounts for: totals may overstate |
| `CachedApproval.CachedApprovalProvider.Look` | src/tesera/policy.py:206-221 | A hit is an unexpired inner allowance of the same five-field key; a miss drops that key and nothing else while there is room, and in a full cache what has expired, or the oldest entry when nothing has |
| `CachedApproval.CachedApprovalProvider.File` | src/tesera/policy.py:223-230 | The entry is filed for one TTL and nothing else changes while there is room; in a full cache what has expired goes, or the oldest entry when nothing has; the order stays |
| `CachedApproval.CachedApprovalProvider.Evict` | src/tesera/policy.py:219-221 | Evicts the oldest entries, and only those, down to the limit |
| `CachedApproval.CachedApprovalProvider.Decide` | src/tesera/policy.py:198-231 | Allows exactly on a hit or an inner allowance, whatever other threads do between the two sections |

## Left out

- Cryptography: SHA-256 is an injective function and an Ed25519 check an arbitrary predicate; keys, PEM files and permissions are not modelled.
- Real input and output: an append is one atomic step under the file lock and a crash is stopping between steps; fsync, partial writes and directory creation are not modelled.
- Platforms without working file locks, where the source itself says that concurrent writers can over-allow.
- Clocks, random ids and signing are parameters; ids are fresh and honest signatures check.
- `_PRECHECK_CACHE` and the unlocked look as authorities: the pre-check may deny at any time but reports a completion only when there is one.
- Journal stores without an atomic append: the protocol is the one on a single, un-rotated file journal; witness sinks only fail or not.
- Asynchronous execution, which takes the same steps as the synchronous one.
- Reservation.StepKeeps: an archive event during a run of the protocol is not a step; a rotation starts a new file and so a new run.
- ArchiveJournal.JournalDirectory.Archive: other writers act in two gaps, before the rename and right after it, and not between later steps; the candidate names are given as distinct, not built from a time stamp.
- ArchiveJournal.JournalDirectory.PruneArchives: the listing in order of modification time is a parameter.
- IdempotencyCache.FileJournal.FindCompleted: the cache of answers by file stat is not part of this model, nor is a torn read.
- RateLimit.WindowsHoldAtMostMaxCalls: time is a real number; floating-point rounding of the clock is not modelled.
- JsonRoundTrip.RoundTrip: integer tokens only, and no `$num` or `__proto__` keys; the printing of floats is a parameter.
- Spending.SpendIsConserved: starts from totals within the budget, and says nothing while the state file is corrupt, where every decision denies.
- Name folding and regular expressions: "is a sensitive name" and "matches a pattern" are given predicates, and `scrub_text` is not modelled.
- Verifier details: optional fields that no check reads are arbitrary, compound JSON values are compared by their canonical text, and unhashable ids and integers of unlimited text length are not modelled.
- Issue messages: an issue is its code, its line or event id and the values it quotes.
- `ts/src/Lock.ts` and the TypeScript versions of the Python components.
- Command line, HTML export, servers, schemas, contracts, observers, gateway, reconciliation, and the stateless policy combinators: plumbing, or settled by reading one branch.
