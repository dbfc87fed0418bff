# Verified model of the durable state and coordination core

This project models, in Dafny 4.11, the parts of the repository that keep durable state and let agents
share work, and proves what they promise over every input, every run and every crash.

* **Torn-write ledger reader.** `JsonGrammar` states the grammar of sections 2 to 7 of RFC 8259 as syntax trees
  with a printer; `JsonParser` and `JsonRoundTrip` show that reading and printing are inverse. `JsonAutomaton`
  and `NumberAutomaton` are the stack machine; `JsonAgreement` ties it to the grammar, and `TruncatedText` holds
  the recogniser itself as the loop it is. `LedgerSnapshot` reads the bytes of a ledger, with `Utf8` (RFC 3629)
  for lines cut inside a character; `LedgerRecovery`, `LedgerGrowth` and `AppendOnlyStore` prove recovery, for
  writes torn at any byte, and `SampleCodec` shows that what they ask of a codec can be met.
* **Retention and replay.** `LedgerRecords`, `Retention` and `RetentionReplay`: the closure loop computes the
  least closed set, and what is replayed does not change. `RetentionMeaning` and `ReplayMeaning` say what is kept
  and what is shown in terms of the records alone.
* **Worktree leases.** `WorktreeLeases` has the three files and their durable steps; `LeaseRecovery` proves that
  a crash at any step is undone; `LeaseInvariants` what every step keeps; `LeaseReclamation` and `BranchPolicy`
  that reclaimed history never fakes continuity; `LeaseManager` and `LeaseCleanup` are the operations, each
  as the series of its writes, and `LeaseGuarantees` says what the invariant means for callers. A process is
  given a number of writes it lives to make; every operation is proved for every such number, so that each
  crash point is covered, and a new process starts from whatever files are left; `LeaseRuns` puts them together
  to whole runs.
* **Fleet coordination.** `FleetLeases` and `FleetLeaseStore`: leases on scopes and their bounded log;
  `FleetRuns` follows leases through whole runs.
  `SessionFence`: clients that send, cancel and close under an exclusive lease and may die anywhere.
* **Streaming text.** `SseStream` splits frames, over bytes that `LossyUtf8` decodes; `RecalledText` is the text
  that history has delivered, `EventMapper` maps raw events to runtime events, and `MessageStreams` follows
  messages through the mapper.
* **Turn accounting.** `ActiveTurns`.

Objects whose methods change their fields are classes here, with loops where the source has loops; each method
is proved against a function or a predicate about which the theorems are proved as lemmas. `Wrappers` holds the
option type.

What the model takes as given:

* A text is a sequence of Unicode scalar values, as a decoder yields it. The schema check on a ledger record is
  an arbitrary function from the syntax tree to accepted, rejected or too new; writing a record prints a text
  that this function reads back. The identity stamp of the ledger changes with every write and never returns.
* File replacement is atomic and locks are exclusive. What Git, the file system and process checks answer is a
  parameter of each operation, and so are fresh identifiers and times. Times are whole numbers.
* Keys that the source builds with JSON.stringify are tuples; identifiers are not empty.
* The order in which an object lists its intents is a parameter of replay: the theorems hold for each order.
* A path that the lease manager has resolved reads as itself when it is identified right afterwards.

Some promises hold only under a condition, which is proved with them:

* A removal whose worktree was seen gone, whose record a crash left written, and whose worktree is then seen
  untouched again leaves a released lease in the active map (`LeaseRuns.Reappear`); it does so exactly when the
  record is released already while the map still has the lease (`LeaseGuarantees.WithdrawalIsSafeExactly`). The
  run carries a flag that falls there and rises with the next writing of the map; exclusion, continuity and the
  safety of removals do not depend on it. If retention takes the released record away before the map is written
  again, the store refuses every later mutation (`LeaseRuns.LockOut`).
* When leases are no roots of a selection, a live session replays as before if and only if the route decisions it
  shows are kept, which can fail for a task that a lease alone names (`RetentionReplay.LoneTaskLosesRoute`).
* Continuity needs times that do not go back; the run carries a flag that says whether they did.
* A replayed message under a new name is recognised only if its first delta is no longer than the history
  (`RecalledText.HistoryIsNeverRepeated`); text behind a history is swallowed when it is that of another message
  of the turn, and a delta without text makes a history come again (`RecalledText.HistoryAmongOthers`).
* A finished item finds the text that was told of its message under the name of the deltas or in a fresh turn;
  elsewhere it is told right under a condition on what it finds (`MessageStreams.DeltasThenItem`), and so are
  messages without a name (`MessageStreams.UnnamedExactly`).
* A finished item that the history did not list brings a history once more (`MessageStreams.HistoryThenItem`).
* A fence that awaits the identity of its turn falls only for an event that identifies the turn as long as the client
  that sees the event has acted since the fence last changed (`SessionFence.RunSession`); one that has not may take an
  alias alone for proof.

## Model

| member | source | states |
|---|---|---|
| TruncatedText.TruncatedJson | packages/state-ledger/src/ledger-snapshot.ts:51-121 | the verdict on a text that JSON.parse refuses: true exactly when the text is no JSON text but some suffix completes it to one; with an incomplete character at the end, exactly when a completion starts with a non-ASCII character |
| TruncatedText.VerdictIsTruncated | packages/state-ledger/src/ledger-snapshot.ts:51-121 | the state of the automaton at the end of the text decides exactly that question, for every text |
| TruncatedText.ReadToken | packages/state-ledger/src/ledger-snapshot.ts:75-119 | one turn of the loop, between tokens, moves the stack machine as the automaton moves over the same characters |
| TruncatedText.ScanString | packages/state-ledger/src/ledger-snapshot.ts:57-74 | the string scanner stops at the closing quote, at a bad escape, or at the end, and says which, as the automaton would |
| TruncatedText.ScanHex | packages/state-ledger/src/ledger-snapshot.ts:67-71 | the four hexadecimal digits of an escape, with the end of the text among them told apart from a wrong digit |
| TruncatedText.ReadNumber | packages/state-ledger/src/ledger-snapshot.ts:112-117 | the number branch: cut off at the end of the text, accepted, or refused exactly as the grammar of section 6 of RFC 8259 has it |
| JsonAgreement.AcceptsExactlyJson | packages/state-ledger/src/ledger-snapshot.ts:51-121 | a text leads the stack machine to acceptance if and only if it is a JSON text of the grammar in sections 2 to 7 of RFC 8259 |
| JsonAgreement.LiveExactlyCompletable | packages/state-ledger/src/ledger-snapshot.ts:75-120 | the stack machine is not stuck if and only if some suffix completes the text to a JSON text |
| JsonAgreement.InStringExactlyNonAscii | packages/state-ledger/src/ledger-snapshot.ts:57-74 | it stands inside a string and outside an escape if and only if a completion may start with a non-ASCII character |
| JsonAutomaton.FinishAccepts | packages/state-ledger/src/ledger-snapshot.ts:75-120 | from every sound state there is a text that completes what was read; the text is constructed |
| NumberAutomaton.AcceptsExactlyNumbers | packages/state-ledger/src/ledger-snapshot.ts:112-116 | the number automaton accepts exactly the numbers of the grammar |
| NumberAutomaton.OwesExactlyCutNumbers | packages/state-ledger/src/ledger-snapshot.ts:117 | it owes a digit exactly after a number cut off where a digit must follow |
| JsonRoundTrip.ParsePrint | packages/state-ledger/src/ledger-snapshot.ts:128-129 | reading a printed syntax tree gives the tree back |
| JsonRoundTrip.PrintParse | packages/state-ledger/src/ledger-snapshot.ts:128-129 | what the reader returns is a valid tree that prints as the text |
| JsonRoundTrip.ParseAcceptsExactly | packages/state-ledger/src/ledger-snapshot.ts:128-129 | the reader accepts exactly the JSON texts |
| JsonRoundTrip.Unambiguous | packages/state-ledger/src/ledger-snapshot.ts:128-129 | a JSON text has one syntax tree only |
| Utf8.DecodeCut | packages/state-ledger/src/ledger-snapshot.ts:157-165 | bytes of a text cut anywhere decode to the whole characters before the cut, and a cut inside a character is inside a non-ASCII one (RFC 3629) |
| Utf8.DecodesExactly | packages/state-ledger/src/ledger-snapshot.ts:157-165 | bytes decode to a text if and only if they are its encoding, or the encoding of that text and a proper beginning of one more character; other bytes are malformed |
| Utf8.DecodeEncode | packages/state-ledger/src/ledger-snapshot.ts:157-165 | decoding undoes encoding |
| LedgerSnapshot.ParseBytes | packages/state-ledger/src/ledger-snapshot.ts:123-181 | for every sequence of bytes: the lines up to the last newline are each blank or a JSON text that the schema check accepts, and the records are those of the lines that are not blank, one for one and in order, with rising safe sequences and new identifiers; what follows is nothing, a pending record or a torn one; or else the offset is the start of the first line, or of the tail, that breaks this, and the schema is called newer exactly when the schema check says so there |
| LedgerSnapshot.ReadingIsRight | packages/state-ledger/src/ledger-snapshot.ts:123-181 | the same for the recursive definition of reading that the theorems on recovery use |
| LedgerSnapshot.ParseTail | packages/state-ledger/src/ledger-snapshot.ts:156-178 | what follows the last newline is nothing, a pending record, a torn tail or corruption, as the definition has it that ReadingIsRight is about |
| LedgerRecovery.TornAppend | packages/state-ledger/src/ledger-snapshot.ts:123-181 | a printed ledger cut at any byte is never corruption: exactly the records whose newline survived are returned, and a pending one exactly when only its newline was lost |
| LedgerRecovery.RepairIsComplete | packages/state-ledger/src/append-only-store.ts:323-350 | after the repair the ledger reads as complete with the records read and the pending one, for every ledger that reads at all; repairing again therefore changes nothing |
| LedgerRecovery.ScanTruncated | packages/state-ledger/src/append-only-store.ts:339-349 | cutting at the complete bytes keeps exactly the complete records |
| LedgerRecovery.ScanCompleted | packages/state-ledger/src/append-only-store.ts:329-335 | writing the lost newline turns the pending record into a complete one |
| LedgerRecovery.PendingLine | packages/state-ledger/src/ledger-snapshot.ts:156-178 | a tail that is a record is kept pending, never dropped |
| LedgerRecovery.ProperPrefixIsNoJson | packages/state-ledger/src/ledger-snapshot.ts:166-178 | a record cut short is never itself a record, so a torn line is never taken for a shorter one |
| LedgerGrowth.ScanOrdered | packages/state-ledger/src/ledger-snapshot.ts:134-143 | whatever is read has strictly rising sequences and distinct identifiers |
| LedgerGrowth.AppendedReads | packages/state-ledger/src/append-only-store.ts:210-243 | appending a record to a complete ledger adds exactly that record, and a torn write adds it pending or not at all |
| LedgerGrowth.RewrittenReads | packages/state-ledger/src/append-only-store.ts:270-284 | a ledger rewritten from ordered records holds exactly those |
| LedgerGrowth.RepairedIsWhole | packages/state-ledger/src/append-only-store.ts:323-350 | a repaired ledger holds, in order, what was visible before |
| AppendOnlyStore.AppendedIsVisible | packages/state-ledger/src/append-only-store.ts:210-243 | what was visible stays visible through an append cut at any byte |
| AppendOnlyStore.Disk.Repair | packages/state-ledger/src/append-only-store.ts:323-350 | the broken tail is saved as evidence before it is cut off; a crash between the writes loses nothing visible |
| AppendOnlyStore.Store.WritableRecords | packages/state-ledger/src/append-only-store.ts:323-350 | returns the visible records and leaves a ledger that reads as complete, or refuses and leaves all as it was |
| AppendOnlyStore.Store.ReadSnapshot | packages/state-ledger/src/ledger-snapshot.ts:184-222 | refused exactly if the ledger is larger than the limit, or is missing although the manifest counts records |
| AppendOnlyStore.Store.Initialize | packages/state-ledger/src/append-only-store.ts:139-159 | the manifest counts the records and never falls below a sequence it knew; a ledger without a manifest is refused |
| AppendOnlyStore.Store.LoadCache | packages/state-ledger/src/append-only-store.ts:198-202 | a cache whose identity matches says what a full re-read would say |
| AppendOnlyStore.Store.AppendRecord | packages/state-ledger/src/append-only-store.ts:195-246 | the sequence is the same with and without the cache and exceeds every sequence ever visible, pruned ones included; the manifest then counts the records |
| AppendOnlyStore.Store.WriteRecord | packages/state-ledger/src/append-only-store.ts:233-238 | the write of one record, stopped at any byte, leaves the visible records and at most the new one |
| AppendOnlyStore.Store.CompactRecords | packages/state-ledger/src/append-only-store.ts:249-288 | exactly the selected records remain; the manifest is raised before the ledger is replaced, so no crash lets a pruned sequence be given out again |
| AppendOnlyStore.RunOperations | packages/state-ledger/src/append-only-store.ts:139-288 | over any run of opening, appending, compacting and crashing by two handles the sequences given out rise strictly, and each exceeds every sequence that was visible at any time before it, be its record pruned since or left behind by an append that crashed |
| SampleCodec.SomeCodecIsFaithful | packages/state-ledger/src/append-only-store.ts:223 | there are a schema check and a way to write records that read back as the theorems on the store ask |
| LedgerRecords.NormalizeGivesNormalized | packages/state-ledger/src/schema.ts:74-91 | a record without a conflict of scope gets the scope its payload names |
| LedgerRecords.NormalizeExactly | packages/state-ledger/src/schema.ts:74-91 | normalising fills in as little of the scope as makes the record agree with its payload, and is refused exactly if nothing filled in would |
| LedgerRecords.NormalizedExactly | packages/state-ledger/src/schema.ts:74-91 | which scopes each kind of payload names |
| LedgerRecords.LatestIsNewest | packages/state-ledger/src/retention.ts:63-64 | the map of newest records holds, for each entity, the record no later one replaces |
| Retention.CollectRoots | packages/state-ledger/src/retention.ts:65-72 | the roots are the pinned, recent and not prunable records and the last few of each kind, and no others |
| Retention.Select | packages/state-ledger/src/retention.ts:54-140 | the loop ends and its result is the least set that contains the roots and is closed under newest-of-entity, session, turn, parent, root, lease, handoff-source and request/response references |
| Retention.Pass | packages/state-ledger/src/retention.ts:100-138 | one pass of the loop keeps only what every closed set contains, and a pass that changes nothing shows the set is closed |
| Retention.SelectionIsUnique | packages/state-ledger/src/retention.ts:54-140 | there is only one such set, so the order of the passes does not matter |
| RetentionMeaning.KeptExactly | packages/state-ledger/src/retention.ts:54-140 | a record is kept if and only if a chain of reasons leads to it, said of the fields of the records alone, and pruned otherwise: it stands alone, it is history of something live or of a task that such history names, or it is the newest state of what a kept record is a state of or names |
| RetentionMeaning.AloneIsKept | packages/state-ledger/src/retention.ts:65-72 | kept for its own sake: every pinned record, and of the kinds that may be roots every record of a kind not to be pruned, without an age limit or young enough, or among the last few of its kind |
| RetentionMeaning.BelongingIsKept | packages/state-ledger/src/retention.ts:73-112 | kept with its task: the history of open sessions and turns, unexpired leases with their holders, and unanswered requests, and of every task that this history names |
| RetentionMeaning.NeededIsKept | packages/state-ledger/src/retention.ts:113-137 | with a kept record the newest records are kept of its own entity, of its session and turn, of the parent, root, worktree lease and handoff sources of a session, of the holder of a lease, of the request of a response and of the response to a request |
| RetentionReplay.SelectionIsIdempotent | packages/state-ledger/src/retention.ts:54-140 | applied to its own result with the same policy and time the selection keeps everything |
| ReplayMeaning.ReplayIsRight | packages/state-ledger/src/replay.ts:498-535 | the replay shows the newest record of the session; of each of its turns, requests and responses the newest record, once, in the order of first appearance; all its events, evidence and route decisions, those of its tasks included, in order; and the cursor one past the highest |
| RetentionReplay.LatestAfterPruning | packages/state-ledger/src/retention.ts:113-114 | pruning never makes an older record of an entity the newest |
| RetentionReplay.ReplayIsPreservedExactly | packages/state-ledger/src/replay.ts:515-535 | a session that is held live replays after pruning exactly as before if and only if the route decisions it shows are kept, with a record of the session for each task they are shown for; the kinds that are no roots are any that the replay does not show |
| RetentionReplay.ReplayIsPreserved | packages/state-ledger/src/replay.ts:515-535 | that is so whenever no task of the session is named by records alone whose kind is no root, and with every kind allowed as a root always |
| RetentionReplay.AllKindsShare | packages/state-ledger/src/retention.ts:58 | with every kind allowed as a root the conditions above hold |
| RetentionReplay.LoneTaskLosesRoute | packages/state-ledger/src/retention.ts:105-122 | an input outside the condition: leases are no roots, a lease alone names the task of a live session, and pruning loses the route decision that its replay shows |
| RetentionReplay.LiveSessionsReplay | packages/state-ledger/src/replay.ts:515-535 | the same, with liveness said of the ledger alone: an open session, an open turn, an unexpired lease or an unanswered approval, of a kind that may be a root |
| RetentionReplay.ActiveTurnsArePreserved | packages/state-ledger/src/replay.ts:246-256 | the set of active turns is the same after pruning, as long as turns may be roots, whatever other kinds may not: no finished turn comes back |
| RetentionReplay.PendingApprovalsArePreserved | packages/state-ledger/src/replay.ts:233-245 | the set of pending approvals is the same after pruning, as long as approval requests may be roots, whatever other kinds may not: no answered approval comes back |
| RetentionReplay.AnsweredStaysAnswered | packages/state-ledger/src/retention.ts:135-136 | a kept request keeps its response |
| ReplayMeaning.ActiveTurnsAre | packages/state-ledger/src/replay.ts:246-256 | the active turns are exactly the newest states of turns that have not ended |
| ReplayMeaning.PendingApprovalsAre | packages/state-ledger/src/replay.ts:233-245 | the pending approvals are exactly the requests without a response |
| FleetLeases.OverlapMeansSharedPath | packages/worktree-leasing/src/lease-store.ts:138-140 | two selectors overlap if and only if some path is equal to or below both |
| FleetLeases.PathSetsOverlap | packages/worktree-leasing/src/lease-store.ts:142-162 | two path sets overlap if and only if some path is covered by both |
| FleetLeases.OverlapExactly | packages/worktree-leasing/src/lease-store.ts:142-162 | two scopes overlap if and only if one is the whole repository, or both are path sets that cover a common path, or both list a common symbol |
| FleetLeases.SelectorsAre | packages/worktree-leasing/src/lease-store.ts:125-136 | the selectors of a scope are exactly those given, without slashes behind them, but for empty ones |
| FleetLeases.ExclusiveIsDisjoint | packages/worktree-leasing/src/lease-store.ts:192-240 | two stored hard path-set leases cover disjoint sets of paths |
| FleetLeases.RepoExcludesAll | packages/worktree-leasing/src/lease-store.ts:192-240 | beside a hard lease on the repository there is no other hard lease |
| FleetLeases.UnexpiredFacts | packages/worktree-leasing/src/lease-store.ts:390-408 | expiry drops exactly the expired leases, and exclusion survives it for every clock value |
| FleetLeases.DropsExactlyOldest | packages/worktree-leasing/src/lease-store.ts:378-382 | what is dropped is exactly the unprotected events before some point, as many as asked; all others stay in order |
| FleetLeases.LastMatchKept | packages/worktree-leasing/src/lease-store.ts:363-388 | dropping other events keeps the last event that matches |
| FleetLeases.TrimKeepsEvidence | packages/worktree-leasing/src/lease-store.ts:363-388 | after trimming, every stored lease still has its acquisition and its newest event, as the untrimmed history has them |
| FleetLeaseStore.TrimFits | packages/worktree-leasing/src/lease-store.ts:377-382 | the written log has 10000 events at most, and all of them if there were fewer |
| FleetLeaseStore.LocalLeaseStore.ProtectedIndices | packages/worktree-leasing/src/lease-store.ts:365-376 | the two maps filled in one pass hold exactly the newest event and the newest acquisition of each stored lease |
| FleetLeaseStore.LocalLeaseStore.ExpireState | packages/worktree-leasing/src/lease-store.ts:390-408 | the live leases, and one expiry event for each of the others |
| FleetLeaseStore.LocalLeaseStore.WriteState | packages/worktree-leasing/src/lease-store.ts:363-388 | the log written is the trimmed one; it is refused exactly over capacity, and then nothing changes |
| FleetLeaseStore.LocalLeaseStore.Acquire | packages/worktree-leasing/src/lease-store.ts:192-240 | granted exactly when the identifier is free and no hard lease overlaps a hard request; the new state is said in full, and exclusion is kept |
| FleetLeaseStore.LocalLeaseStore.Renew | packages/worktree-leasing/src/lease-store.ts:242-286 | only the holder renews, only an unexpired lease, and only its lifetime changes |
| FleetLeaseStore.LocalLeaseStore.Release | packages/worktree-leasing/src/lease-store.ts:288-322 | only the holder releases; a lease that is not there counts as released |
| FleetLeaseStore.LocalLeaseStore.Expire | packages/worktree-leasing/src/lease-store.ts:340-348 | the count and the state after dropping the expired leases |
| FleetRuns.Serve | packages/worktree-leasing/src/lease-store.ts:192-348 | one call of the store: every other lease whose time is not over stays as it is, no lease stays whose time is over unless the call fails, and a lease granted or renewed is as asked for, its time beginning with the call |
| FleetRuns.RunStore | packages/worktree-leasing/src/lease-store.ts:192-348 | over any run of calls a lease granted or renewed at a time stays stored until its lifetime from then is over, unless its holder renews or releases it before |
| WorktreeLeases.MapKeyIsInjective | packages/worktree-leasing/src/lease-manager.ts:43 | the key of the active map tells repository, branch and mode apart for valid branch names |
| WorktreeLeases.ColonsWouldCollide | packages/worktree-leasing/src/mounted-workspace.ts:52-78 | why branch names must have no colon: with one, two branches can share a key |
| WorktreeLeases.RefusedExactly | packages/worktree-leasing/src/mounted-workspace.ts:52-78 | a branch name is refused exactly if it is empty, begins or ends with a slash, has two dots in a row, or another character than letters, digits, hyphen, dot, slash and underscore |
| WorktreeLeases.ActiveMapIsUnique | packages/worktree-leasing/src/lease-manager.ts:349-351 | the records determine the active map |
| WorktreeLeases.BuildActiveMap | packages/worktree-leasing/src/lease-manager.ts:349-351 | the loop over the records builds the map of exactly the active leases |
| LeaseRecovery.CrashIsUndone | packages/worktree-leasing/src/lease-manager.ts:323-354 | a mutation cut off after any of its five durable writes is completed by the next replay: ledger, registry and active map are those of the run without a crash; before the first write nothing has happened |
| LeaseRecovery.ReplayResumes | packages/worktree-leasing/src/lease-manager.ts:355-388 | replay cut off at any write of any intent, and run again in the same world, ends where it would have ended |
| LeaseRecovery.ReplaySettles | packages/worktree-leasing/src/lease-manager.ts:355-388 | after a replay only intents are left that it passes over |
| LeaseRecovery.ApplyInPart | packages/worktree-leasing/src/lease-manager.ts:339-354 | each write of an intent may be repeated: applying an intent that was applied in part gives the state of applying it once |
| LeaseInvariants.StageKeepsInv | packages/worktree-leasing/src/lease-manager.ts:323-329 | writing an intent keeps the invariant: exclusion, rows once, active map, continuity, removals |
| LeaseInvariants.AppendKeepsInv | packages/worktree-leasing/src/lease-manager.ts:339-346 | appending the row keeps it; no row is appended twice, even after retention took the first away |
| LeaseInvariants.StoreKeepsInv | packages/worktree-leasing/src/lease-manager.ts:347-348 | storing the record keeps it |
| LeaseInvariants.WriteMapKeepsInv | packages/worktree-leasing/src/lease-manager.ts:349-351 | writing the active map keeps it, makes the map exact, and ends what a removal called off too late has left |
| LeaseInvariants.UnstageKeepsInv | packages/worktree-leasing/src/lease-manager.ts:352-353 | dropping an intent keeps it, once all three files have followed the intent or none has |
| LeaseInvariants.CallOffKeepsInv | packages/worktree-leasing/src/lease-manager.ts:377 | calling a removal off, whatever of it is written, keeps exclusion, rows, continuity and removals; the active map may no longer follow exactly when the lease is stale |
| LeaseInvariants.MarkDoneKeepsInv | packages/worktree-leasing/src/lease-manager.ts:222-227 | marking a removal as done keeps it |
| LeaseGuarantees.LeasesStayApart | packages/worktree-leasing/src/lease-manager.ts:98-121 | in every reachable state, active and pending leases that differ share neither a branch of a repository nor a path |
| LeaseGuarantees.QuietMapIsExact | packages/worktree-leasing/src/lease-manager.ts:349-351 | with nothing pending, the active map is that of the active leases, and has as many entries as there are, unless it was not written since a removal was called off too late |
| LeaseGuarantees.RemovalIsSafe | packages/worktree-leasing/src/lease-manager.ts:217-230 | a removal whose worktree is not known to be gone has no row and no released lease, and its lease keeps branch and path from all others |
| LeaseGuarantees.WithdrawalIsSafeExactly | packages/worktree-leasing/src/lease-manager.ts:377 | calling off a removal keeps the active map right if and only if the record of the lease is not released already while the map still has an entry of it |
| LeaseGuarantees.ReappearanceLeavesAStaleEntry | packages/worktree-leasing/src/lease-manager.ts:355-381 | the one way there: a worktree seen gone, a crash once the record is written, and the worktree seen untouched again; with nothing pending, the active map then has an entry of a released lease |
| LeaseReclamation.KeptRows | packages/worktree-leasing/src/lease-manager.ts:190-195 | compaction keeps the selected rows, and no row twice |
| LeaseReclamation.CompactKeepsInv | packages/worktree-leasing/src/lease-manager.ts:389-419 | compaction that keeps the pinned rows keeps the invariant, the row of every intent included |
| LeaseReclamation.EvidenceSurvives | packages/worktree-leasing/src/lease-manager.ts:404-416 | the first and the last row of a lease in use survive compaction |
| LeaseReclamation.RowSurvives | packages/worktree-leasing/src/lease-manager.ts:404-416 | so do rows of leases the registry does not know, the row of an intent, the first and last row of a pending lease, and the last row of one released no longer ago than the limit |
| LeaseReclamation.ReclaimedExactly | packages/worktree-leasing/src/lease-manager.ts:177-180 | staged are exactly the released leases without an intent that have a row and will have none in the compacted ledger |
| LeaseReclamation.CollectWatermarks | packages/worktree-leasing/src/lease-manager.ts:181-187 | for each continuation the latest release taken away, where it is above the standing watermark |
| LeaseReclamation.StageReclamationKeepsInv | packages/worktree-leasing/src/lease-manager.ts:188-189 | a staged reclamation carries a watermark for every release it will take away |
| LeaseReclamation.ReclaimAll | packages/worktree-leasing/src/lease-manager.ts:424-434 | exactly the staged releases that are still released, not pending and without rows leave, and the watermarks rise by exactly those |
| LeaseReclamation.LeavingExactly | packages/worktree-leasing/src/lease-manager.ts:424-428 | of the staged leases exactly those leave that are still released, are in no intent, and have no row |
| LeaseReclamation.DropMarks | packages/worktree-leasing/src/lease-manager.ts:435-438 | exactly the watermarks stay that some record or intent is not newer than |
| LeaseReclamation.ReclaimKeepsInv | packages/worktree-leasing/src/lease-manager.ts:424-433 | a release that leaves is still remembered by its watermark |
| LeaseReclamation.DropMarkKeepsInv | packages/worktree-leasing/src/lease-manager.ts:435-438 | a dropped watermark loses nothing: whoever is left is newer than all it stood for |
| BranchPolicy.EvaluateBranchCollision | packages/worktree-leasing/src/branch-policy.ts:9-118 | a request is allowed exactly with the two reasons that allow it, an allowed one finds no active lease on its branch, a path is offered exactly with the reason for reuse, and whatever reason is given is true |
| BranchPolicy.GetSequentialCandidate | packages/worktree-leasing/src/lease-manager.ts:441-452 | the candidate is a release that no matching one is later than, unknown when tied or not above the watermark |
| BranchPolicy.TieBreakDoesNotMatter | packages/worktree-leasing/src/lease-manager.ts:441-452 | which of several latest releases is taken makes no difference to the decision |
| BranchPolicy.OfferedExactly | packages/worktree-leasing/src/lease-manager.ts:441-452 | a path is offered if and only if the request asks to continue with leave to reuse, the branch is free, and the path is that of a release of the task there, recorded clean at an agreeing head, that no other is later than or at odds with and no reclaimed one can be newer than |
| BranchPolicy.ContinuationIsHonest | packages/worktree-leasing/src/lease-manager.ts:441-452 | as long as no mutation was dated before an earlier one, a path is offered only from a release recorded clean that no release of the same task, repository and branch is later than, reclaimed or not |
| LeaseManager.Manager.ApplyIntent | packages/worktree-leasing/src/lease-manager.ts:339-354 | applies the intent with as many writes as it takes, or dies exactly where the writes run out, or finds the ledger full and changes nothing; the row never mismatches |
| LeaseManager.Manager.FollowRow | packages/worktree-leasing/src/lease-manager.ts:347-353 | the three writes after the row, cut off exactly where the writes run out |
| LeaseManager.Manager.CallOffRemoval | packages/worktree-leasing/src/lease-manager.ts:377 | the intent of a removal without effect is dropped, whatever of it is written |
| LeaseManager.Manager.PublishMutation | packages/worktree-leasing/src/lease-manager.ts:323-338 | five writes, cut off exactly where they run out; an intent to acquire or renew is withdrawn when the ledger is full, and one to release stays |
| LeaseManager.Manager.ReplayPending | packages/worktree-leasing/src/lease-manager.ts:355-388 | for everything that may be seen of the worktrees the loop is the recursive replay and finishes exactly when the writes last, or stops inside one intent; what was found gone was seen gone; the map goes on following the records unless a worktree reappears |
| LeaseManager.Manager.ReplayIntent | packages/worktree-leasing/src/lease-manager.ts:356-387 | what is done with one intent, and with how many writes, in each case of what is seen, a written removal seen untouched included |
| LeaseManager.NoMismatch | packages/worktree-leasing/src/lease-manager.ts:341-343 | the error of a row that is not that of its intent cannot come from the manager's own crashes |
| LeaseManager.OwnershipExactly | packages/worktree-leasing/src/lease-manager.ts:249-262 | nothing stands against the owner if and only if the lease is active, without an intent, and the same in token, holder, path, repository, branch and mode; and when each of the errors is given |
| LeaseManager.TakenExactly | packages/worktree-leasing/src/lease-manager.ts:109-112 | a path or branch counts as occupied exactly if an intent is about the branch, or a lease in use or an intent about the path |
| LeaseManager.Manager.EnsureManagedStore | packages/worktree-leasing/src/lease-manager.ts:286-290 | refused exactly when the active map has an entry of a lease the registry does not know; crashes alone never lead there, but a worktree that reappears can; the map is never corrupt |
| LeaseManager.Manager.FinishReclamation | packages/worktree-leasing/src/lease-manager.ts:420-440 | the staged reclamation is carried out in one write, with the watermarks said exactly |
| LeaseManager.Manager.BeginMutation | packages/worktree-leasing/src/lease-manager.ts:277-285 | what precedes every mutation: refused exactly under a conflict, with all files as they were; else the reclamation and the replay are done, or the process died at a known write |
| LeaseManager.Manager.AcquireLease | packages/worktree-leasing/src/lease-manager.ts:93-122 | the decision is taken after the replay of the old files; a granted lease is new, is in all three files, and shares neither branch nor path with anything that stood there; its record, also one that a death leaves announced, says what was asked for: dirty state, head, request, holder, times and lifetime, and the canonical form of the path wanted; a continued one lies on the path of the last clean release; a refusal changes nothing more; a death leaves a series of writes cut short |
| LeaseManager.Manager.GrantLease | packages/worktree-leasing/src/lease-manager.ts:98-121 | the same from the decision on |
| LeaseManager.Manager.RenewLease | packages/worktree-leasing/src/lease-manager.ts:123-137 | after the replay of the old files, only the owner of an active lease without an intent renews it, never back in time; the lifetime begins anew, dirty state and head are those given or stay, and nothing else changes, nor in what a death leaves behind; refused under a conflict with all files as they were |
| LeaseManager.Manager.ProlongLease | packages/worktree-leasing/src/lease-manager.ts:127-136 | the same once the replay is done |
| LeaseManager.Manager.ReleaseLease | packages/worktree-leasing/src/lease-manager.ts:138-149 | after the replay of the old files, the lease is released in all three files with its dirty state, head and request as they were, and the release is on record; a lease that is unknown or released is left alone; a full ledger leaves the intent; refused under a conflict with all files as they were |
| LeaseManager.Manager.PublishRelease | packages/worktree-leasing/src/lease-manager.ts:148 | the release of an active lease in five writes, or cut short by a death, or left standing by a full ledger |
| LeaseManager.Manager.RetainHistory | packages/worktree-leasing/src/lease-manager.ts:170-200 | the releases that lose their last row are exactly those staged; the ledger keeps the pinned rows and what either selection keeps; then the staged releases leave; refused exactly under a conflict |
| LeaseManager.Manager.StageRemoval | packages/worktree-leasing/src/lease-manager.ts:217-221 | the announced removal stands in the registry and nothing else changed |
| LeaseManager.Manager.MarkRemovalDone | packages/worktree-leasing/src/lease-manager.ts:222-227 | the removal is done, and its worktree counts as gone |
| LeaseManager.Manager.PublishRemoval | packages/worktree-leasing/src/lease-manager.ts:228-230 | only a removal whose worktree is gone makes a released lease |
| LeaseCleanup.RemovalNeedsProof | packages/worktree-leasing/src/cleanup.ts:19-53 | a worktree may be removed if and only if it is proven to be the leased one, registered for the branch, on it and clean, its holder is missing, and the caller says nothing against it; and exactly when a lease may be reconciled without a removal |
| LeaseCleanup.StopsAreTrue | packages/worktree-leasing/src/cleanup.ts:19-53 | whatever reason is given for a stop is so, by what the caller says or by what is seen |
| LeaseCleanup.CleanupLeasedWorktree | packages/worktree-leasing/src/cleanup.ts:9-79 | after the replay of the old files: announce, remove, mark, release; wherever it stops, the lease is released only if its path was gone or the worktree was removed; otherwise the removal stays announced; a death leaves one of the states of that series; refused under a conflict with all files as they were |
| LeaseCleanup.CleanupOwned | packages/worktree-leasing/src/cleanup.ts:16-79 | the same once the replay is done |
| LeaseCleanup.RemoveWorktree | packages/worktree-leasing/src/cleanup.ts:54-71 | the series announce, remove, mark, release: only after the removal is a lease released by it |
| LeaseRuns.Run | packages/worktree-leasing/src/lease-manager.ts:75-453 | over any series of acquisitions, renewals, releases, cleanups, retentions and replays by processes that may die at any write, whatever each of them sees, also of the same files: leases in use or pending share neither branch nor path, and a lease is released through a removal only when its worktree was found gone; whatever was found gone was seen absent, or removed by a cleanup, at some step of the run, whose moments are returned and all keep the invariant; as long as no step sees the worktree of a stale lease again, the active map is exact whenever nothing is pending and the store is never in conflict; a conflict is for good and then no file changes any more; no release is ever forgotten, and while mutations are dated in order a lease acquired to continue another one continues a release that none recorded at any moment up to then is later than, and whose worktree was declared clean: of every lease known at any moment the recorded state is the one some step before declared, or that of the beginning, and no later step has settled another one |
| LeaseRuns.Act | packages/worktree-leasing/src/lease-manager.ts:75-453 | one action of a process with so many writes to live keeps all of that: it finds a worktree gone only by seeing it absent or by removing it, forgets no release, sets the clock to its own time or not at all, and a lease that it records or only announces continues the last release if it is to continue one; every record or intent that is new says what the caller of this step asked for |
| LeaseRuns.Reappear | packages/worktree-leasing/src/lease-manager.ts:355-381 | the failing run through the operations, from any quiet files: a cleanup that stops once announced, a replay that finds the worktree gone and dies after two writes, and a replay that finds it untouched; the lease is released, the map still has it, and nothing is pending |
| LeaseRuns.LockOut | packages/worktree-leasing/src/lease-manager.ts:286-290 | retention that then takes the released record away leaves the store in the conflict that refuses every later mutation |
| LeaseRuns.ReappearAndLockOut | packages/worktree-leasing/src/lease-manager.ts:286-381 | both together, from any quiet files |
| SessionFence.MayFollow | packages/omnigent-transport/src/http-provider.ts:351-386 | a step may follow when no interrupt is unresolved, and after a stop only a stop |
| SessionFence.Client.Install | packages/omnigent-transport/src/http-provider.ts:1292-1349 | afterwards the quarantine of the client is exactly the cancellation of the shared state, and a turn awaits its identity exactly if it did before and is not let go, or if the shared state says so |
| SessionFence.Client.SendTurn | packages/omnigent-transport/src/http-provider.ts:351-386 | a turn is sent exactly when neither the shared state, with a cancellation, closing or closed, nor the client stands against it; what becomes of the active turn; turns refused for good are added to the shared state under all their names, and nothing else is |
| SessionFence.Client.CancelTurn | packages/omnigent-transport/src/http-provider.ts:886-923 | the turn is reserved while the cancellation is in progress; the fence stands before the interrupt goes out and falls only with a denial by policy or the proof, early or late, wherever the client dies; each outcome with the fence it leaves |
| SessionFence.Client.CancelReserved | packages/omnigent-transport/src/http-provider.ts:925-1123 | the same under the exclusive lease: for each outcome the whole fence that is written, with the names of the turn, and whether it awaits the identity: only while no name is known and the turn has none of its own; an event that arrived while the turn was reserved and proves its cancellation takes the fence down at once |
| SessionFence.Client.TakeIn | packages/omnigent-transport/src/http-provider.ts:1920-1929 | the early proof is noted exactly if one of the events that arrive gives it |
| SessionFence.Client.CloseSession | packages/omnigent-transport/src/http-provider.ts:1125-1182 | the session is marked as closing before the stop goes out; refused exactly under a cancellation; the shared state and the messages for each outcome, death at each point included |
| SessionFence.Client.ConsumeQuarantine | packages/omnigent-transport/src/http-provider.ts:1911-1978 | an event proves the cancellation of a turn if and only if the turn is in quarantine, the event is about it, and it identifies the turn or interrupts the session if its identity is awaited; for a reserved turn it is noted as early proof exactly if it interrupts the session or ends that turn as cancelled |
| SessionFence.Client.ObserveProof | packages/omnigent-transport/src/http-provider.ts:1351-1375 | the fence falls exactly if the event proves the cancellation of the turn it stands for; when the fence awaits the identity of the turn and the client has installed it, only for an event that interrupts the session or gives the alias a confirmed other name |
| SessionFence.Client.ObserveConsumed | packages/omnigent-transport/src/http-provider.ts:1377-1401 | the fence goes up again only where none stands and the session is open |
| SessionFence.RunSession | packages/omnigent-transport/src/http-provider.ts:351-1401 | over any interleaving of clients that may die anywhere: a cancellation never stands beside closing or closed, closed is for good, rejected turns only grow, and no turn is sent between an interrupt or stop that was not denied and the step that resolves it; a cancellation that stands is taken down only by an event of the stream, and, where it awaits the identity of its turn and the client that sees the event has acted since the fence last changed, only by one that identifies the turn or interrupts the session |
| SseStream.SplitMore | packages/omnigent-transport/src/sse-stream.ts:665-668 | splitting what has come and then the rest with what comes next is splitting it all, also inside CRLF CRLF |
| SseStream.NoEarlierSeparator | packages/omnigent-transport/src/sse-stream.ts:666-667 | a separator completed by later text never lies before one that is complete |
| SseStream.Decoder.Feed | packages/omnigent-transport/src/sse-stream.ts:665 | whatever the bytes, what was given out so far is the text of the bytes so far, without a byte order mark; the bytes of an unfinished character are kept |
| SseStream.Decoder.Finish | packages/omnigent-transport/src/sse-stream.ts:665 | at the end an unfinished character shows as a replacement character |
| SseStream.ReadPayloads | packages/omnigent-transport/src/sse-stream.ts:651-687 | for every stream of bytes, well-formed or not, and however it is cut into chunks, the payloads are those of the text that all the bytes decode to |
| LossyUtf8.DrawTogether | packages/omnigent-transport/src/sse-stream.ts:665 | decoding some bytes and then the rest with what is pending is decoding them all |
| LossyUtf8.CharIsRead | packages/omnigent-transport/src/sse-stream.ts:665 | where the bytes start with a character, that is read, and then the rest |
| LossyUtf8.BrokenIsReplaced | packages/omnigent-transport/src/sse-stream.ts:665 | where they start with none, a replacement character stands for the longest beginning of one, or for the byte that begins none, and then the rest is read; so what is read is said for every sequence of bytes |
| LossyUtf8.StartsSomehow | packages/omnigent-transport/src/sse-stream.ts:665 | bytes that start with no character have a longest beginning of one, so that the two together say what every sequence of bytes is read as |
| LossyUtf8.AgreesWithDecode | packages/omnigent-transport/src/sse-stream.ts:638 | where the failing decoder reads a text this one reads the same, and where it fails this one gives a replacement character |
| LossyUtf8.LossyEncode | packages/omnigent-transport/src/sse-stream.ts:638 | an encoded text is read as it is |
| SseStream.FramingRoundTrip | packages/omnigent-transport/src/sse-stream.ts:651-687 | frames whose every line end is LF or CRLF by free choice, with several data lines, other lines and comments, read back as their payloads: the data of a frame joined by newlines, nothing for a frame without data or one that is not finished |
| SseStream.FramedAndRead | packages/omnigent-transport/src/sse-stream.ts:651-687 | the same through encoding, an optional byte order mark and any cutting into chunks |
| RecalledText.ToldExactly | packages/omnigent-transport/src/event-mapper.ts:207-279 | over any stream and whatever is recalled: nothing of a message is lost or repeated at any moment if and only if as much of each of its deltas is taken for history as there is history left |
| RecalledText.ClaimedExactly | packages/omnigent-transport/src/event-mapper.ts:214-247 | a delta claims the first message of its name; if there is none, the first whose text it is; if there is none either, the first whose text begins or ends with it, unless it is empty; and otherwise none |
| RecalledText.HistoryAmongOthers | packages/omnigent-transport/src/event-mapper.ts:207-279 | a message whose history is recalled under its name, among any others and with any deltas between its own: told exactly beyond its history at every moment if and only if no delta without text comes before the history is replayed and no delta behind the history is cut for another message of its turn; when both faults come together one can hide the other, and the general condition decides |
| RecalledText.HistoryAsFound | packages/omnigent-transport/src/event-mapper.ts:207-279 | the same for the history that the first delta of a message finds, by its name or by its text, so for a message under a new name in a turn with several messages |
| RecalledText.HistoryIsNeverRepeated | packages/omnigent-transport/src/event-mapper.ts:207-279 | a turn whose history is one message, whatever else the turn then brings: told exactly beyond the history at every moment if and only if the message kept its name or its first delta is no longer than the history |
| RecalledText.ResumesAtEnd | packages/omnigent-transport/src/event-mapper.ts:258-279 | a stream that takes a message up again at the end of its history: that end is skipped if and only if it occurs nowhere else in the history; what follows is told as it is under the condition above |
| RecalledText.RenamedMessagesCanRepeatAndLose | packages/omnigent-transport/src/event-mapper.ts:214-257 | an input outside the condition: the history is delivered again and a later delta is swallowed |
| RecalledText.OtherMessagesCanSwallow | packages/omnigent-transport/src/event-mapper.ts:214-247 | an input outside the condition: new text that is also the text of another message of the history is swallowed |
| RecalledText.EmptyDeltaForgets | packages/omnigent-transport/src/event-mapper.ts:248-281 | an input outside the condition: a delta without text makes the history be told once more |
| MessageStreams.TellStream | packages/omnigent-transport/src/event-mapper.ts:107-321 | any stream of events through the mapper in any state: the deltas of a message tell what the theorems on history speak about, events that were seen before and events of other kinds change nothing in that, and what is told is noted under the name of the message until it is finished |
| MessageStreams.ReplayStream | packages/omnigent-transport/src/event-mapper.ts:107-321 | the theorems on history for the mapper itself, over any stream of events and in any state: the general condition, and the conditions for a history recalled by name, found by the first delta, or alone in its turn |
| MessageStreams.StreamThenItem | packages/omnigent-transport/src/event-mapper.ts:107-395 | any stream and then the finished item of a message under the name of its deltas: history, deltas and item make up its text if and only if the item completes what it finds in the notes, or is not new and the deltas brought the rest; when the deltas told anything it finds just that, and a new item then completes it if and only if there is no history and the deltas begin the text |
| MessageStreams.SayDeltas | packages/omnigent-transport/src/event-mapper.ts:207-321 | the deltas of one message, named or not, in any state of the turn: what each tells, and all that is noted of it under message and turn |
| MessageStreams.CompletesExactly | packages/omnigent-transport/src/event-mapper.ts:363-367 | what was said and what a finished item adds to what it finds emitted make up the text behind the history if and only if it finds exactly history and deltas, or adds nothing and nothing is missing, or adds everything and nothing was delivered |
| MessageStreams.DeltasThenItem | packages/omnigent-transport/src/event-mapper.ts:107-395 | deltas of one message and then a finished item, under its own name, another or none, in any state of the turn: they make up the text if and only if the item completes what it finds in the notes, which are given; under the name of the deltas, or in a turn where nothing was told yet, it finds what the deltas told, and when nothing is recalled of the message that is all of them |
| MessageStreams.OtherItemTakesOver | packages/omnigent-transport/src/event-mapper.ts:338-367 | an input outside the condition: in a turn that has told the beginning of one message, the item of another one adds only what that beginning lacks |
| MessageStreams.HistoryThenItem | packages/omnigent-transport/src/event-mapper.ts:107-395 | a message that is partly history, its deltas and its finished item: they give the text once if and only if the item is not new and the deltas brought the rest, or it completes what it finds; an item that finds what the deltas told and is new in spite of the history never does |
| MessageStreams.HistoryToldAgain | packages/omnigent-transport/src/event-mapper.ts:117-128 | an input outside the condition: an item that the history did not list brings the history and the deltas once more |
| MessageStreams.UnnamedExactly | packages/omnigent-transport/src/event-mapper.ts:355-367 | a message without a name after other text of its turn is told as it is if and only if it is the first and its deltas begin it, or all of it came in deltas and the text of the turn begins with it, or no delta came and neither begins with the other; two of the ways to fail: one that came whole in deltas and does not begin the text of the turn is told twice, one that came without deltas and begins the text of the turn is not told |
| MessageStreams.NextUnnamedMessage | packages/omnigent-transport/src/event-mapper.ts:281-395 | the same for the mapper, whatever came before in the turn; the text noted for the turn then grows by what was told |
| EventMapper.Mapper.SkipHistory | packages/omnigent-transport/src/event-mapper.ts:207-279 | the recalled text and what a delta adds to it |
| EventMapper.Mapper.MapTextDelta | packages/omnigent-transport/src/event-mapper.ts:207-321 | what history has not delivered goes out and is noted under message and turn |
| EventMapper.Mapper.MapMessage | packages/omnigent-transport/src/event-mapper.ts:323-395 | a finished message adds what the deltas have not brought |
| EventMapper.Mapper.MapEnd | packages/omnigent-transport/src/event-mapper.ts:454-564 | a turn ends once, under either of its names |
| EventMapper.Mapper.MapStart | packages/omnigent-transport/src/event-mapper.ts:151-170 | a turn starts once |
| EventMapper.Mapper.MapCall | packages/omnigent-transport/src/event-mapper.ts:396-426 | a call is made once |
| EventMapper.Mapper.MapResult | packages/omnigent-transport/src/event-mapper.ts:427-450 | a call is answered once |
| EventMapper.Mapper.MapOutputItem | packages/omnigent-transport/src/event-mapper.ts:323-452 | a finished item gives the missing text, a call or a result, or nothing |
| EventMapper.Mapper.MapControl | packages/omnigent-transport/src/event-mapper.ts:130-205 | which events start or end a turn, and how |
| EventMapper.Mapper.Map | packages/omnigent-transport/src/event-mapper.ts:107-205 | an item of the history or seen before gives nothing, any other at most one event: for each kind of raw event exactly which start, end, call or result, and when; the kind of end for each kind of raw event and reason |
| EventMapper.Mapper.MapAll | packages/omnigent-transport/src/event-mapper.ts:601-608 | over any stream the sequences are contiguous, and no turn starts or ends twice and no call is made or answered twice |
| ActiveTurns.Increment | packages/coordinator/src/active-turns.ts:43-66 | succeeds exactly when every count of the owner is and stays a safe count; exactly those counts rise |
| ActiveTurns.Decrement | packages/coordinator/src/active-turns.ts:68-87 | succeeds exactly when every count of the owner covers what is taken; exactly those counts fall |
| ActiveTurns.SettlingUndoesBeginning | packages/coordinator/src/active-turns.ts:43-87 | settling what was begun gives every count back |
| ActiveTurns.BuildSnapshot | packages/coordinator/src/active-turns.ts:21-41 | the counts are sums over the statuses, and the last status for a profile |
| ActiveTurns.Accounting.Begin | packages/coordinator/src/active-turns.ts:94-101 | exactly when a turn can begin, and what changes |
| ActiveTurns.Accounting.Settle | packages/coordinator/src/active-turns.ts:102-107 | a turn that was begun can always be settled; settling again changes nothing |
| ActiveTurns.Run | packages/coordinator/src/active-turns.ts:89-108 | after any run every count is that of the start and the unsettled turns in its bucket |

## Left out

- Descriptors, fsync, rename, the SQLite-backed file lock and Git subprocesses: atomic steps, an exclusive lock and parameters stand for them.
- The index files of the store, the size check of the manifest and snapshots in progress: the indexes are refreshed only on opening and compaction and do not follow each append.
- The schema library, redaction, secret scanning and limit classification: library-bound, or lists of patterns.
- The Supabase stores, the HTTP client, the CLI transport and the process manager: wrappers over services that cannot be seen.
- The commands, adapters, identity preflight, capacity formula and retry budgets: field mapping and single-branch checks.
- The normaliser of raw stream events and the bookkeeping of provisional turn names in the provider: the fence takes the names a client observes as parameters.
- The rest of the control view: of the counters and rows only active turns and pending approvals are modelled.
- RetentionReplay.ReplayIsPreservedExactly: when a kind that the replay shows is not allowed as a root its records may go, which is what that option is for.
- FleetLeaseStore.LocalLeaseStore.Renew: the second test for expiry is not written, because a lease that expiry left is not expired; times are in whole seconds.
- FleetLeases.PathSetsOverlap: the sorted list of selectors is the set it lists; the path "/" as a selector becomes empty and is dropped, as in the code.
- LeaseManager.Manager.AcquireLease: the managed root, the repository root and the default placement of a worktree are parameters; a record keeps no managed root.
- LeaseManager.Manager.RetainHistory: the selection of rows is any selection that keeps the pinned ones, because rows of other kinds decide about it as well.
- SessionFence.Client.SendTurn: a client that uses no exclusive lease is not modelled, and neither is a store write that fails while its client lives on.
- SseStream.ReadPayloads: a payload is handed on as text, before it is parsed as JSON; an aborted or failing stream is not modelled.
- EventMapper.Mapper.Map: event identifiers, times and payload details that are passed through are not modelled, and no event is refused by its schema.
