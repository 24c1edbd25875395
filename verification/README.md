# Verified model of the reference hosts' stateful cores

This project models, in Dafny, the parts of the OpenWOP reference hosts that keep state and
make promises about it, and proves those promises for every input, every interleaving and
every run. `dafny verify dfyconfig.toml` checks all of it.

## What is modelled

**The tamper-evident audit log** of the SQLite host. `Json`, `JsonText` and `JsonRoundTrip` hold a
canonical printer (sections 3.2.2 and 3.2.3 of RFC 8785) over UTF-16 text and decimal numbers,
JSON.parse, and the round trip between them. `JsonGrammar` has the whole grammar of RFC 8259 as
derivations, which the reader accepts exactly; `JsonHoles` says which values with undefined in them
are printed as text that reads back, and `JsonSpelling` which of the texts that read as a value is
the printed one. `Merkle` has the bottom-up loop and the tree it equals. `AuditEntry` says which
columns a row's hash binds, `AuditLog` has the two tables, the writers and the verifier with its
loops, `AuditVerdict` says what the verifier's answer means, `AuditFindings` what each anomaly in it
says of the tables, `AuditAnchors` when a checkpoint is made and what it holds, `AuditHistory` what
every history of writes gives, `AuditTamper` what an accepted table proves, and `AuditUnseen` what
the verifier does not report and exactly what its acceptance is worth. SHA-256, the signature pair
and the rounding of a decimal to binary64 are fields of `AuditLog.Host`. No hash is assumed
injective on all strings, which no hash of fixed length can be: the theorems ask that it does not
collide on the finitely many texts hashed for the tables at hand.

**The durable run executor** of the SQLite host. `Executor` gives what the single-threaded host does
between two real waits as the list of its SQL statements in order, both as functions and as a class
with the source's loop. `RunSteps` says what the executor does to a run between two waits, and
`ResolveRequests` what a resolve request does to it by its body, its gate and the clock.
`ExecutorRuns` proves what every run without crashes keeps. In `Recovery` a crash is such a list cut
short anywhere, followed by a restart that claims the orphan, and `CrashEndings` counts how often a
run then logs its end. `Approval` is the vote ledger and its two thresholds, and the executor uses
it for its approval gates. `Dispatch` bounds the supervisor/dispatch loop, `Lease` treats the claims
of several processes on one run, `Channel` the pruned append channel and `Sse` the event stream to
one client.

**The transaction lock of the Postgres host.** `TxLock` is a machine of ticketed callers on
one connection, with bodies that throw, statements that fail and abort the transaction, and
commits and rollbacks that fail; `TxLedger` says what its committed tables are in every run.
`TxClients` runs logAudit and resolveApproval through it statement by statement.

**Pure cores.** `ChainExpansion` renames a workflow chain into a parent, `Convergence` has the
append projection and the cross-region conflict rule over `Ordering`'s sort, and `Der` encodes
ES256 signatures (section 3.4 of RFC 7518, section 8.3 of X.690, section 2.2.3 of RFC 3279).

## Where the code and what is said of it part

- The header of the SQLite audit module (examples/hosts/sqlite/src/audit.ts:23-27) says that the
  verify endpoint reports tampering as anomalies. Among what it cannot report:
  - another spelling of stored details, which are hashed only in their canonical form after
    parsing (`AuditUnseen.RespellingUnseen`; of rewritten details nothing else passes,
    `AuditUnseen.OnlyRespellingsPass`);
  - rows cut off the end of the log, even where a signed checkpoint past the cut remains, because
    the range is clamped to the tip that is left (`AuditUnseen.TruncationUnseen`);
  - rows after the last checkpoint in the table, which can be replaced by any others that hash and
    link; dropping checkpoint rows moves that point back (`AuditUnseen.TailRewritingUnseen`);
  - rows numbered below 1 put in front, whatever they hold (`AuditUnseen.RowsBelowOneUnseen`);
  - the id and the time of a checkpoint, and without the key its signature
    (`AuditUnseen.CheckpointColumnsUnseen`);
  - without the key, a whole log with signatures of its own (`AuditUnseen.WithoutKeyAnyLogPasses`).

  Where the checkpoints anchor what the host's do, `AuditUnseen.AcceptedExactly` says what is left: a
  table is accepted up to its tip exactly when it is a linked chain and the host's own rows up to
  the last checkpoint the tip reaches.
- Details may hold undefined. A member that is undefined is dropped, but an array prints nothing in
  the place of an undefined item, so `{ a: [1, undefined] }` is stored as text JSON.parse refuses
  (`JsonHoles.HoleInMember`). Details read back exactly if they are whole: nothing undefined at any
  depth but members of objects, and the one item of an array that then prints as empty
  (`JsonHoles.ReadsBackIffWhole`). The verifier accepts a range of the host's own log exactly if all
  rows it re-reads were written with whole details, and throws over any other
  (`AuditHistory.RangeAcceptedExactly`), so a history verifies over every range exactly if all it
  wrote was whole (`AuditHistory.HistoryAccepted`).
- The comment on recursionLimit (examples/hosts/sqlite/src/server.ts:1746-1749) calls it a cap on
  the node executions of a run. The code compares the position of the next node, so with jumps back
  it does not bound them: a supervisor and a dispatch node run (p + 1) * 2 nodes under a limit of 2
  (`Dispatch.BoundIsMet`). A limit caps the executions of a fresh run, however its nodes end, exactly
  when it caps the run in which they all end well (`Dispatch.LimitCapsExactlyBestRun`). Where no plan
  has an entry without workers that is read off the workflow: a limit within it caps them exactly
  when a straight pass below it comes to no jump (`Dispatch.LimitCapsExactlyWithoutJump`), so always
  when no dispatch node stands behind a supervisor below it
  (`Dispatch.JumpTakesDispatchBehindSupervisor`, `Dispatch.LimitCapsWithoutJump`). An entry without
  workers can end a run that has jumped before it passes the limit
  (`Dispatch.EmptyEntryJumpsYetCapped`). What the limit bounds in every case is the factor of (P + 1)
  in `Dispatch.LoopTerminatesWithin`.
- The comment above resumeOrphans (examples/hosts/sqlite/src/server.ts:3802) names two statuses;
  its query also takes cancelling runs, and so does the model.
- Range verification composes without asking that checkpoint sequences differ
  (`AuditVerdict.RangesCompose`).
- A Merkle root alone does not fix the number of leaves (`Merkle.RootAloneIsAmbiguous`); what
  the log hashes opens with a brace, and for such leaves it does (`Merkle.RootBindsMarkedTexts`).
- A gate that requires no approvals is released as accepted by a rejection
  (`Approval.NoQuorumReleasesOnReject`).
- A ROLLBACK that fails is swallowed. On a transaction that is open and not aborted the next caller
  then acts on what was to be undone and commits it (`TxLock.FailedRollbackLeaks`), and nothing but
  such leftovers is ever committed beside whole bodies (`TxLedger.CommittedInEveryRun`); on an
  aborted one nothing leaks, but no later call ever commits on that connection
  (`TxLock.FailedRollbackOnAborted`, `TxLock.AbortedStaysShut`).
- With crashes a run can log its end more than once: one ending event for each crash that falls
  between such an event and the status it calls for, and one more when the run is terminal
  (`CrashEndings.EndingsCounted`). Without such a crash at most one is logged, and last
  (`CrashEndings.EndsOnceUnlessCut`); after one the log always goes past it
  (`CrashEndings.CutLogsPastEnding`).
- Two gates under one id can be confused: a request that read the run at the first may release the
  second and send the run back. `ExecutorRuns.EachNodeOnce` names the pairs of kinds for which that
  is possible, `ExecutorRuns.ReleaseKeepsOrderIff` says exactly which release breaks the order, and
  `ExecutorRuns.RepeatedIdRepeatsNode` is a run in which it happens.
- A Last-Event-ID past the log does not hold back later events with lower numbers
  (`Sse.IdPastTheLogIsIgnored`). An event another process appends is not sent, and leaves a gap in
  the stream exactly if an event of this process follows (`Sse.OpenStreamIsLogSlice`); a client that
  receives such an event has missed the other for good (`Sse.ReconnectsDeliverOnce`).

## Model

| member | source | states |
|---|---|---|
| `Json.DeepEqualIsNormEqual` | examples/hosts/sqlite/src/interrupts.ts:309-330 | for JSON values the recursive deepEqual holds exactly when the two have one normal form (members sorted, numbers in one spelling) |
| `JsonRoundTrip.PrintedReads` | examples/hosts/sqlite/src/audit.ts:151-173 | canonical text in front of anything that may follow a value is read back by the JSON grammar as the value's normal form, leaving the rest unread |
| `JsonRoundTrip.ParseOfCanonical` | examples/hosts/sqlite/src/audit.ts:151-173 | canonical text parses to the normal form of the printed value, which prints the same text |
| `JsonRoundTrip.SameTextSameNorm` | examples/hosts/sqlite/src/audit.ts:151-173 | canonical printing is injective up to member order: equal text exactly when equal normal form, undefined members and infinities included |
| `JsonRoundTrip.SameTextIffDeepEqual` | examples/hosts/sqlite/src/audit.ts:151-173 | for all JSON values equal canonical text is exactly deepEqual |
| `JsonRoundTrip.StoredValueIsDeepEqual` | examples/hosts/sqlite/src/audit.ts:318-346 | details whose numbers the host can hold are read back deeply equal to what was written |
| `JsonRoundTrip.RecordTextBinds` | examples/hosts/sqlite/src/audit.ts:183-203 | objects over the same distinct names print alike exactly when their values do, name by name |
| `JsonRoundTrip.ParsedIsStorable` | examples/hosts/sqlite/src/audit.ts:484-500 | whatever JSON.parse accepts has distinct member names and nothing undefined |
| `JsonGrammar.ReadsExactly` | examples/hosts/sqlite/src/audit.ts:484-500 | JSON.parse reads a value from a text exactly if the text has a derivation of that value in the grammar of RFC 8259, every white space, escape and exponent included, and throws exactly if it has none |
| `JsonGrammar.OneMeaning` | examples/hosts/sqlite/src/audit.ts:484-500 | however a text is derived, it means one value |
| `JsonGrammar.LastOfNameCounts` | examples/hosts/sqlite/src/audit.ts:484-500 | an object has a member under each name written in it, once, with the value written last |
| `JsonGrammar.NumeralByDigits` | examples/hosts/sqlite/src/audit.ts:484-500 | before rounding a literal stands for its digits without the zeros around them, the point carried as far as the exponent says, and for zero exactly if it has no other digit |
| `JsonGrammar.HexDigitsSpelled` | examples/hosts/sqlite/src/audit.ts:369-369 | the hexadecimal digits are 0 to 9, a to f and A to F, each for its place |
| `JsonSpelling.PlainPrintsItself` | examples/hosts/sqlite/src/audit.ts:151-173 | a text with no quote, backslash, unit below 0x20 or surrogate half is printed as itself between quotes |
| `JsonSpelling.PrintedIsShortest` | examples/hosts/sqlite/src/audit.ts:151-173 | of all literals that the JSON grammar reads as a text without lone surrogates none is shorter than the printed one, and of those as short it is the only one without capital hexadecimal digits in an escape |
| `JsonSpelling.LoneSurrogateEscaped` | examples/hosts/sqlite/src/audit.ts:140-152 | a lone surrogate is printed as the six units of its number in small digits, between what is printed for the text on either side |
| `JsonSpelling.PlainNumberSpelled` | examples/hosts/sqlite/src/audit.ts:151-173 | a number from 10^-6 up to below 10^21 is printed as sign, whole digits and, after a point, further digits, with no zero too many at either end |
| `JsonSpelling.OtherNumberSpelled` | examples/hosts/sqlite/src/audit.ts:151-173 | any other number but zero is printed with an exponent: one digit that is not zero, the rest of its shortest digits after a point, and the signed distance of the point |
| `JsonSpelling.ZeroSpelled` | examples/hosts/sqlite/src/audit.ts:151-173 | both zeros are printed as the one digit |
| `JsonSpelling.ArraySpelled` | examples/hosts/sqlite/src/audit.ts:151-173 | an array is printed as its items in order with nothing but commas between them |
| `JsonSpelling.ObjectSpelled` | examples/hosts/sqlite/src/audit.ts:151-173 | an object is printed as its members that are not undefined by strictly rising code-unit order of their names, each as name, colon and value, with nothing but commas between them |
| `JsonSpelling.NameOrderExists` | examples/hosts/sqlite/src/audit.ts:169-172 | every object with distinct names has such an order of its members |
| `JsonHoles.ReadsBackIffWhole` | examples/hosts/sqlite/src/audit.ts:151-173 | a value with distinct names and numbers the host can hold is read back as one that prints the same text exactly if nothing in it is undefined but members of objects and the one item of an array; the text of any other is refused |
| `JsonHoles.HoleFails` | examples/hosts/sqlite/src/audit.ts:151-173 | a value with an undefined item beside others, at any depth, is printed as text that is read as no value, whatever follows it |
| `JsonHoles.WholeReads` | examples/hosts/sqlite/src/audit.ts:151-173 | a whole value in front of anything that may follow is read back as its normal form with emptied arrays, leaving the rest unread |
| `JsonHoles.HoleInMember` | examples/hosts/sqlite/src/audit.ts:151-173 | an object with a member that is an array of some item and undefined, which the type of details allows, is stored as text that is refused |
| `Ordering.SortSorts` | examples/hosts/sqlite/src/audit.ts:169-171 | the stable sort orders its input and permutes it |
| `Ordering.SortOfPermutation` | examples/hosts/postgres/src/cross-engine-append.ts:99-104 | sorting forgets the order of the input when no two different elements tie |
| `Merkle.MerkleRoot` | examples/hosts/sqlite/src/audit.ts:210-223 | the nested loops with odd-node promotion end with the root of the recursive tree, the hash of the empty string for no leaves |
| `Merkle.LevelRootIsTree` | examples/hosts/sqlite/src/audit.ts:210-223 | pairing up level by level equals splitting at the largest power of two below the number of leaves (the shape of section 2.1 of RFC 6962, without its prefix bytes) |
| `Merkle.LadderEndsInRoot` | examples/hosts/sqlite/src/audit.ts:210-223 | whatever ladder of levels is built over the leaves, each with the hash of every two neighbours, left before right, and an odd last node as it is, its last node is the root |
| `Merkle.RootSplits` | examples/hosts/sqlite/src/audit.ts:210-223 | the root of two leaves or more is the hash of the roots on the two sides of the power of two below their number, left before right |
| `Merkle.SmallRoots` | examples/hosts/sqlite/src/audit.ts:210-223 | no leaves have the hash of the empty text for their root, and one leaf is its own |
| `Merkle.DigestsSpelled` | examples/hosts/sqlite/src/audit.ts:175-177 | digests are spelled with 0 to 9 and a to f, and there are hashes that yield them |
| `Merkle.SplitPointIsPowerOfTwo` | examples/hosts/sqlite/src/audit.ts:210-223 | the split point is the largest power of two below n |
| `Merkle.RootBindsLeaves` | examples/hosts/sqlite/src/audit.ts:210-223 | two leaf lists of one length have equal roots only if they are equal |
| `Merkle.RootBindsMarkedTexts` | examples/hosts/sqlite/src/audit.ts:210-223 | for leaves that hash texts no digest can open, the root binds the whole list, its length included |
| `Merkle.RootAloneIsAmbiguous` | examples/hosts/sqlite/src/audit.ts:210-223 | in general a root does not fix the number of leaves: a leaf may equal an inner node |
| `AuditEntry.EntryTextBinds` | examples/hosts/sqlite/src/audit.ts:183-203 | two entries have one hash input exactly when sequence, time, actor, action, target, previous hash and the details up to normal form agree |
| `AuditEntry.IntNumberInjective` | examples/hosts/sqlite/src/audit.ts:193-201 | sequences that print alike are equal |
| `AuditEntry.StoredTextIsEntryText` | examples/hosts/sqlite/src/audit.ts:318-346 | what a verifier re-reads from the columns logAudit stored is the text logAudit hashed if the details are whole, and otherwise JSON.parse throws |
| `AuditEntry.EntryTextReads` | examples/hosts/sqlite/src/audit.ts:183-203 | what is hashed for a row reads back as an object of exactly seven members, which hold each column under its own name, the sequence as a number of that value, null for a missing previous hash, and the details in normal form |
| `AuditEntry.StoredTextReads` | examples/hosts/sqlite/src/audit.ts:484-500 | so does the text a verifier hashes for any stored row whose details parse, with the details as they are read |
| `AuditEntry.StoredTextBinds` | examples/hosts/sqlite/src/audit.ts:490-500 | two stored rows that rehash from one text are the same entry |
| `AuditEntry.DetailsTextIffCanonical` | examples/hosts/sqlite/src/audit.ts:323-343 | of rows with the entry of an honest one, exactly those whose stored details are canonical text have the honest text |
| `AuditLog.Log.LogAudit` | examples/hosts/sqlite/src/audit.ts:318-346 | one row is appended with the next sequence, the columns of the input, the hash of the last row as its link and the hash of a text that reads as the row under the names of its columns, or nothing where the unique index refuses it |
| `AuditLog.Log.CreateCheckpoint` | examples/hosts/sqlite/src/audit.ts:352-386 | one checkpoint over the rows since the last, signed on the bytes of its root; nothing when there is no new row |
| `AuditLog.Log.TriggerCheckpointIfDue` | examples/hosts/sqlite/src/audit.ts:392-415 | a checkpoint is made exactly when the log is not empty and the entry interval, the time interval or the lack of any checkpoint asks for one |
| `AuditLog.Log.WalkChain` | examples/hosts/sqlite/src/audit.ts:468-512 | the walk over the rows finds exactly the gaps, broken links and changed rows of the recursive specification |
| `AuditLog.Log.CheckAnchor` | examples/hosts/sqlite/src/audit.ts:525-600 | a checkpoint is compared with the root over the rehashed rows since the one before and its signature checked |
| `AuditLog.Log.WalkAnchors` | examples/hosts/sqlite/src/audit.ts:514-604 | the walk over the checkpoints gives their findings, anomalies and result entries in order, the first measured from the checkpoint found by query |
| `AuditLog.Log.VerifyAuditChain` | examples/hosts/sqlite/src/audit.ts:430-616 | the verifier's answer for any range of any table, or the exception where stored details do not parse, is the specification's |
| `AuditVerdict.ValidIffNoAnomalies` | examples/hosts/sqlite/src/audit.ts:72-92 | on any table chainValid holds exactly when anomalies is empty, and checkpointsValid exactly when none is a Merkle or signature mismatch |
| `AuditVerdict.AcceptsMeans` | examples/hosts/sqlite/src/audit.ts:430-616 | a range is accepted exactly when each row in it rehashes, links to the row before and follows it without gap, and each checkpoint in it holds, said row by row without the walk |
| `AuditVerdict.RangesCompose` | examples/hosts/sqlite/src/audit.ts:459-541 | neighbouring ranges are accepted exactly when their union is, if the row they meet at is present, although the second seeds from the stored hash and looks up the earlier checkpoint |
| `AuditHistory.HistoryIsFormed` | examples/hosts/sqlite/src/audit.ts:318-415 | every history of writes and checkpoints, whatever the details, leaves gapless sequences from 1, true links and true signed roots over the stored hashes |
| `AuditHistory.HistoryIsHonest` | examples/hosts/sqlite/src/audit.ts:318-415 | each row of it is that of an entry that reads back exactly if all the details written were whole |
| `AuditHistory.LogThrowsIff` | examples/hosts/sqlite/src/audit.ts:318-346 | a write throws exactly if some row holds its hash already, and else adds its row and leaves the rest as it was |
| `AuditHistory.ThrowsOnlyOnCollision` | examples/hosts/sqlite/src/audit.ts:318-346 | after any history of whole details a write of whole details that throws yields two different texts with one hash, whatever the entries hold |
| `AuditHistory.RangeAcceptedExactly` | examples/hosts/sqlite/src/audit.ts:318-616 | for every history, range and key or none: the verifier accepts, with no anomaly, exactly if every row in the range or under one of its checkpoints was written with whole details, and throws otherwise |
| `AuditHistory.HistoryAccepted` | examples/hosts/sqlite/src/audit.ts:318-616 | a history is accepted over every range, with and without the key, exactly if all the details it wrote were whole |
| `AuditHistory.ThrowsExactly` | examples/hosts/sqlite/src/audit.ts:430-616 | on any ordered table the verifier throws exactly if the stored details of a row in the range, or under a checkpoint in it, do not parse |
| `AuditHistory.RangeAnswered` | examples/hosts/sqlite/src/audit.ts:430-454 | an answer is for the range from 1 at least and to the tip at most, and reports nothing where that is empty |
| `AuditHistory.UnreadableThrows` | examples/hosts/sqlite/src/audit.ts:484-500 | a row whose stored details do not parse makes the verifier throw on every range that holds it |
| `AuditHistory.HonestAccepted` | examples/hosts/sqlite/src/audit.ts:430-616 | honest tables are accepted over every range |
| `AuditHistory.TruncatedAccepted` | examples/hosts/sqlite/src/audit.ts:430-470 | so are honest tables with rows cut off the end |
| `AuditHistory.CheckpointsPartition` | examples/hosts/sqlite/src/audit.ts:352-386 | in the table of any history each sequence up to the last checkpoint lies in the stretch of exactly one checkpoint |
| `AuditHistory.TailStaysShort` | examples/hosts/sqlite/src/audit.ts:392-415 | when every write, of any details, is followed by triggerCheckpointIfDue, the unanchored tail stays below the entry interval |
| `AuditAnchors.CheckpointByFields` | examples/hosts/sqlite/src/audit.ts:352-386 | for every ordered table: a checkpoint is made exactly if the log has passed the last one, throws exactly if its id is taken, and carries the number reached, the time, the root over exactly the rows since the one before and the signature of its bytes |
| `AuditAnchors.TriggersExactly` | examples/hosts/sqlite/src/audit.ts:392-415 | the trigger adds a checkpoint exactly if there is a row to anchor and the entry interval is reached, the time interval is over or there is no checkpoint yet |
| `AuditAnchors.HexBytesByPairs` | examples/hosts/sqlite/src/audit.ts:369-369 | the bytes that are signed are the pairs of hexadecimal digits one by one, up to the first place where there is none |
| `AuditFindings.AnomaliesAreSo` | examples/hosts/sqlite/src/audit.ts:468-604 | for every ordered table and every range that answers: HashMismatch(s) is listed exactly if row s of the range does not rehash to its stored hash, MissingEntry(s) exactly if s is the first absent number of a gap that a later row of the range follows, ChainBreak(s, e, a) exactly if row s carries a and should carry e, the rehash of the row before it there or the seed; MerkleMismatch and SignatureInvalid exactly for the checkpoints of the range whose root or signature is wrong |
| `AuditFindings.CheckpointsListed` | examples/hosts/sqlite/src/audit.ts:514-604 | the entries are those of the checkpoints of the range in order, each marked verified exactly if, with a key, root and signature are right |
| `AuditFindings.AnomaliesInOrder` | examples/hosts/sqlite/src/audit.ts:468-604 | anomalies of rows come first, by rising number, then those of checkpoints by rising number |
| `AuditTamper.RootPinsPrefix` | examples/hosts/sqlite/src/audit.ts:514-575 | an accepted checkpoint with the root of an honest one proves the table's rows up to it to be the host's |
| `AuditTamper.SignedCheckpointsProvePrefix` | examples/hosts/sqlite/src/audit.ts:430-616 | where only the host's signatures verify, each checkpoint an accepted table reaches proves the whole prefix genuine, whatever was done to the tables |
| `AuditTamper.KeptCheckpointProvesPrefix` | examples/hosts/sqlite/src/audit.ts:430-616 | with one checkpoint's place and root as the host wrote them and no key needed, an accepted table has the host's rows up to it exactly when its tip reaches it |
| `AuditTamper.ChainsAgreeBelow` | examples/hosts/sqlite/src/audit.ts:468-512 | where an accepted chain meets one of the host's hashes it is the host's row for row from there back to the first |
| `AuditUnseen.TruncationUnseen` | examples/hosts/sqlite/src/audit.ts:459-512 | cutting rows off the end is never reported, even past remaining checkpoints |
| `AuditUnseen.RespellingUnseen` | examples/hosts/sqlite/src/audit.ts:484-512 | stored details rewritten as any other text that parses to the same value up to normal form change no answer of the verifier, on any table |
| `AuditUnseen.OnlyRespellingsPass` | examples/hosts/sqlite/src/audit.ts:484-512 | with the details of a row in an accepted range rewritten, the range is still accepted exactly when the new text spells the old value |
| `AuditUnseen.RowsBelowOneUnseen` | examples/hosts/sqlite/src/audit.ts:430-541 | rows numbered below 1 in front of any others change no answer, if no checkpoint is numbered below 0 |
| `AuditUnseen.CheckpointColumnsUnseen` | examples/hosts/sqlite/src/audit.ts:514-604 | checkpoints that differ in id and time, and without the key in signature, are accepted alike |
| `AuditUnseen.TailRewritingUnseen` | examples/hosts/sqlite/src/audit.ts:514-575 | rows after the last checkpoint left in the table can be replaced by any others that hash and link, key or no key, and no range is reported |
| `AuditUnseen.WithoutKeyAnyLogPasses` | examples/hosts/sqlite/src/audit.ts:566-600 | without the key a log written and signed by any other host is accepted over every range |
| `AuditUnseen.AcceptedExactly` | examples/hosts/sqlite/src/audit.ts:430-616 | with the places, the roots and, under the key, the signatures of the checkpoints the host's, a table is accepted up to its tip exactly when it is a linked chain from 1 to the tip and the host's own up to the last checkpoint the tip reaches |
| `AuditUnseen.SameEyesSameVerdict` | examples/hosts/sqlite/src/audit.ts:430-616 | tables that differ in nothing the verifier reads get the same answer |
| `Approval.Interrupts.CreateInterrupt` | examples/hosts/sqlite/src/interrupts.ts:177-217 | a resolved interrupt is replaced by a fresh one, an active one is left alone |
| `Approval.Interrupts.MarkResolved` | examples/hosts/sqlite/src/interrupts.ts:354-366 | the one row named gets the time, the outcome and the votes |
| `Approval.Interrupts.UpdateVotes` | examples/hosts/sqlite/src/interrupts.ts:368-379 | the one row named gets the votes and stays active |
| `Approval.Interrupts.ResolveApproval` | examples/hosts/sqlite/src/interrupts.ts:389-498 | the answer and the row left behind, in every branch and with every other row unchanged |
| `Approval.Interrupts.InvalidateInterrupts` | examples/hosts/sqlite/src/interrupts.ts:552-564 | exactly the run's active interrupts are closed with the reason |
| `Approval.CastKeepsStanding` | examples/hosts/sqlite/src/interrupts.ts:440-452 | replacing and appending one vote at a time keeps exactly the votes that stand: all anonymous ones and each named voter's latest |
| `Approval.OneVotePerVoter` | examples/hosts/sqlite/src/interrupts.ts:440-452 | after every history, with any configuration, no two votes of the ledger share a named voter and each is the latest its voter cast since the gate was last suspended afresh |
| `Approval.LedgerIsStanding` | examples/hosts/sqlite/src/interrupts.ts:440-452 | after every history, whatever is required, the ledger is exactly the votes that stand among those cast |
| `Approval.HistoryKeepsInvariant` | examples/hosts/sqlite/src/interrupts.ts:177-498 | along every history an active gate's ledger is the votes that stand and at no point was a threshold met |
| `Approval.QuorumOverAllHistories` | examples/hosts/sqlite/src/interrupts.ts:389-498 | after any history, a gate resumes with exactly the required accepts and rejects with exactly the threshold, never both, and the deciding vote is the reported final action |
| `Approval.DecidedByFields` | examples/hosts/sqlite/src/interrupts.ts:389-498 | after any history, in the fields of configuration and request: a counted vote resumes exactly if it accepts and the accepting votes not replaced are as many as configured, or one where nothing is; under the first-rejection policy it rejects exactly if it is a rejection, under the majority policy exactly if it is one and twice the rejections exceeds that number; else it is pending |
| `Approval.InvalidByFields` | examples/hosts/sqlite/src/interrupts.ts:404-438 | exactly which requests are refused as invalid at an active gate, by their fields; they leave it as it was |
| `Approval.RowByAnswer` | examples/hosts/sqlite/src/interrupts.ts:354-498 | the row each answer leaves: time, outcome and votes |
| `Approval.UnknownOrLate` | examples/hosts/sqlite/src/interrupts.ts:389-403 | a request finds nothing exactly if there is no open approval gate, and is late exactly if that has expired |
| `Approval.RowByCancel` | examples/hosts/sqlite/src/interrupts.ts:552-564 | a cancelled run closes its open gate with the reason and leaves a settled one |
| `Approval.NoneAskedResumes` | examples/hosts/sqlite/src/interrupts.ts:454-466 | where the configured number is not positive every counted vote but a refine resumes |
| `Approval.PendingLedgerBounded` | examples/hosts/sqlite/src/interrupts.ts:389-498 | a pending ledger has at most (required - 1) + (threshold - 1) accepting and rejecting votes |
| `Approval.SettledStaysSettled` | examples/hosts/sqlite/src/interrupts.ts:332-341 | a settled gate answers unknown and is not changed until it is reached again |
| `Approval.RefineForgetsVotes` | examples/hosts/sqlite/src/interrupts.ts:177-217 | after a refine, and whatever happens until the gate is reached again, its row and ledger are those of a gate reached for the first time with the same later events, for all histories before and after |
| `Approval.NoQuorumReleasesOnReject` | examples/hosts/sqlite/src/interrupts.ts:454-490 | a lone rejection releases a gate as accepted exactly when it requires no approvals |
| `TxLock.Connection.TakeTicket` | examples/hosts/postgres/src/db.ts:52-63 | a call takes the next ticket, waits for the tail it found and becomes the tail |
| `TxLock.Connection.BeginTransaction` | examples/hosts/postgres/src/db.ts:64-66 | BEGIN opens a transaction on the committed tables, only warns inside one and is refused inside an aborted one; a failure goes straight to the release |
| `TxLock.Connection.RunStatement` | examples/hosts/postgres/src/db.ts:68-69 | a statement of the body acts on the open transaction, fails in the database and aborts it, or throws and leaves it as it is; inside an aborted one it fails |
| `TxLock.Connection.FailStatement` | examples/hosts/postgres/src/db.ts:68-69 | a failure from outside the tables aborts the transaction if the database saw it and goes to the rollback |
| `TxLock.Connection.CommitTransaction` | examples/hosts/postgres/src/db.ts:70-71 | COMMIT makes the transaction's tables the committed ones, or rolls an aborted one back; one that rejects may have been applied, dropped or left open |
| `TxLock.Connection.RollbackTransaction` | examples/hosts/postgres/src/db.ts:72-78 | ROLLBACK drops the transaction; one that fails is swallowed |
| `TxLock.Connection.ReleaseTicket` | examples/hosts/postgres/src/db.ts:79-81 | the ticket is released with the promise's outcome |
| `TxLock.MutualExclusionInCallOrder` | examples/hosts/postgres/src/db.ts:50-82 | in every run, whatever fails, at most one caller is between its wait and its release, and callers enter in call order |
| `TxLock.SomeoneCanMove` | examples/hosts/postgres/src/db.ts:52-82 | no deadlock: either every caller has been released or one can take its next step |
| `TxLock.WaitsEnd` | examples/hosts/postgres/src/db.ts:52-82 | no caller waits for ever, however many call after it: until ticket k is released only callers up to it can step, each such step leaves less to do up to it, and a new call leaves as much |
| `TxLock.ResolvedMeansCommitted` | examples/hosts/postgres/src/db.ts:66-81 | a promise that resolves stands for an applied COMMIT |
| `TxLock.RejectsExactly` | examples/hosts/postgres/src/db.ts:50-82 | in every run a promise rejects exactly if a BEGIN, a statement, a throw or the COMMIT of its own call went wrong, and its work is taken exactly if its COMMIT was applied; every promise that settles has one or the other |
| `TxLock.ConnectionByFields` | examples/hosts/postgres/src/db.ts:64-79 | what each step does to the committed tables, the open transaction and its being aborted: COMMIT alone changes the tables, and only if nothing aborted |
| `TxLock.CallerByFields` | examples/hosts/postgres/src/db.ts:64-81 | where each step leaves its caller: a failed BEGIN is not rolled back, any later failure is; no other caller moves |
| `TxLock.SerialKeeps` | examples/hosts/postgres/src/db.ts:50-82 | what every body keeps when run alone the committed tables have |
| `TxLock.FailedRollbackLeaks` | examples/hosts/postgres/src/db.ts:72-76 | after a ROLLBACK that fails on an open transaction that is not aborted the next caller, queued already or not, runs its statements on what was to be undone and commits both, and serial meaning survives exactly if its body makes the same of the committed tables |
| `TxLock.FailedRollbackOnAborted` | examples/hosts/postgres/src/db.ts:72-76 | after a ROLLBACK that fails on an aborted transaction no one inside is left to roll it back |
| `TxLock.AbortedStaysShut` | examples/hosts/postgres/src/db.ts:64-82 | from then on the committed tables stay as they are and no later call commits, whatever is called |
| `TxLedger.CommittedInEveryRun` | examples/hosts/postgres/src/db.ts:50-82 | in every run, whatever fails, the committed tables are what pieces of bodies make of them one after the other; the whole ones are the bodies whose COMMIT was applied, in call order, and every other is the first statements of a caller whose ROLLBACK failed on a transaction that could still be committed |
| `TxLedger.CommittedSerially` | examples/hosts/postgres/src/db.ts:50-82 | so in every run without such a failure they are what the committed bodies make of them, each whole and alone, in call order |
| `TxClients.AloneIsApplied` | examples/hosts/postgres/src/audit.ts:337-385 | the three statements of logAudit, or the read and the write of resolveApproval, run alone do exactly one atomic step |
| `TxClients.InterleavedAsOneStepEach` | examples/hosts/postgres/src/db.ts:50-82 | every interleaving of the clients and of other transactions leaves the tables of the committed operations, one whole step each, in call order |
| `TxClients.CommittedLogIsChain` | examples/hosts/postgres/src/audit.ts:337-385 | in every interleaving, with bodies that throw, the committed log is a gapless linked chain of exactly the committed calls in call order, and next_seq is one past its last |
| `TxClients.CommittedHashesRead` | examples/hosts/postgres/src/audit.ts:337-385 | in every interleaving each hash of the committed log is that of a text which reads as its own row |
| `TxClients.AppliedKeepsLinked` | examples/hosts/postgres/src/audit.ts:342-384 | each operation keeps the chain gapless, linked and in step with next_seq |
| `TxClients.LogByFields` | examples/hosts/postgres/src/audit.ts:337-385 | on any tables logAudit throws exactly if the counter is missing or used up or a row has its number or its hash, and else adds one entry under the counter, chained to the row with the greatest number |
| `TxClients.NoVoteLost` | examples/hosts/postgres/src/interrupts.ts:308-355 | in every interleaving an open gate's ledger is the standing votes among all committed for it, and neither threshold is met |
| `TxClients.ClosedByExactCount` | examples/hosts/postgres/src/interrupts.ts:325-355 | the vote that closes a gate is counted with every one before it and meets its threshold exactly |
| `TxClients.ClosedByFields` | examples/hosts/postgres/src/interrupts.ts:308-355 | the same in the fields of configuration and vote, over all committed votes that are not replaced: plain acceptances only are counted, a rejection closes at once or by majority as configured |
| `TxClients.UpdateByFields` | examples/hosts/postgres/src/interrupts.ts:225-265 | what the UPDATE of a vote writes whatever the row holds by then: expiry only while it is open, the votes alone while the gate stays open, else votes, time and outcome |
| `TxClients.OtherVotes` | examples/hosts/postgres/src/interrupts.ts:308-330 | a vote with an unknown action or for a row that is no open approval gate changes nothing, a late one expires it |
| `TxClients.ClosedStaysClosed` | examples/hosts/postgres/src/interrupts.ts:308-315 | a closed gate is left as it is by every later operation |
| `TxClients.WithoutTheLockAVoteIsLost` | examples/hosts/postgres/src/interrupts.ts:300-308 | without the lock two interleaved voters leave one vote |
| `Executor.Process.AppendEvent` | examples/hosts/sqlite/src/server.ts:635-664 | an event is appended under the number of events before it |
| `Executor.Process.SetRunTerminal` | examples/hosts/sqlite/src/server.ts:675-693 | the terminal status is written and the claim released |
| `Executor.Process.CreateInterrupt` | examples/hosts/sqlite/src/server.ts:1037-1061 | the gate's interrupt row is the fresh one, or the active one already there |
| `Executor.Process.Suspend` | examples/hosts/sqlite/src/server.ts:1839-1863 | a gate leaves its row, the two events, the waiting status of its kind with the cursor on it, and no claim |
| `Executor.Process.FailAt` | examples/hosts/sqlite/src/server.ts:1817-1833 | a node that does not complete leaves the events of how it ended and a failed run |
| `Executor.Process.RunFrom` | examples/hosts/sqlite/src/server.ts:1762-1899 | the loop over the nodes writes exactly the statements of the recursive specification up to the next real wait |
| `Executor.Process.RunWorkflow` | examples/hosts/sqlite/src/server.ts:1692-1917 | an execution announces run.started on its first time and run.resumed later, then goes on from the stored cursor |
| `Executor.Process.Settle` | examples/hosts/sqlite/src/server.ts:2645-2725 | what a resolve handler writes for each outcome, short of resuming |
| `Executor.Process.ResolveInterrupt` | examples/hosts/sqlite/src/server.ts:2582-2837 | the whole handler once the body is there, with the cursor it read before waiting for it, resuming the executor where the claim is free |
| `ResolveRequests.MatchingReplyResumes` | examples/hosts/sqlite/src/server.ts:2582-2837 | a body of the gate's kind that matches, in time, closes the row as resolved with one vote, logs NodeResumed and NodeCompleted of the node, puts the cursor one past the one read, or by token the one stored, and goes on where no process holds the run |
| `ResolveRequests.OtherReplyRefused` | examples/hosts/sqlite/src/interrupts.ts:275-306 | one that does not match leaves run and executor as they were |
| `ResolveRequests.LateReplyExpires` | examples/hosts/sqlite/src/interrupts.ts:256-275 | a late external event closes the row as expired and logs nothing, whatever it says |
| `ResolveRequests.OtherKindChangesNothing` | examples/hosts/sqlite/src/server.ts:2616-2633 | a request of another kind than the row, or without an active row, changes nothing |
| `ResolveRequests.VoteFollowed` | examples/hosts/sqlite/src/server.ts:2645-2725 | what the run is after each answer to a vote: log, status, cursor and claim, field by field |
| `RunSteps.LoopByFields` | examples/hosts/sqlite/src/server.ts:1762-1899 | from any node the loop passes each node it can, with its two events and the cursor one past it, and stops at the first it cannot: what the run then is at an end, a limit, a cancel, a delay, a gate or a failing node, field by field |
| `RunSteps.LaunchByFields` | examples/hosts/sqlite/src/server.ts:1692-1760 | a launch takes a run that is free and pending, running or cancelling, logs run.started if the log has none and run.resumed if it has, and loops from the cursor; it leaves any other as it is |
| `RunSteps.WakeByFields` | examples/hosts/sqlite/src/server.ts:1762-1899 | a delay that is over completes its node and the loop goes on with the next |
| `RunSteps.DeadlineByFields` | examples/hosts/sqlite/src/server.ts:1762-1899 | a deadline cancels the node the executor sleeps in and fails the run |
| `RunSteps.CancelByFields` | examples/hosts/sqlite/src/server.ts:3137-3204 | a cancel leaves an ended run, ends a waiting one and closes its open gates with the reason, ends one that sleeps, and marks any other |
| `RunSteps.EndingCut` | examples/hosts/sqlite/src/server.ts:675-685 | what a crash after n statements leaves of an ending: the event first, then the status, then the claim |
| `RunSteps.CompletingCut` | examples/hosts/sqlite/src/server.ts:1762-1899 | of a node that completes: its two events, then the cursor |
| `RunSteps.SuspendingCut` | examples/hosts/sqlite/src/server.ts:1762-1899 | of a suspension: the node's start, the interrupt, its suspension, status with cursor, the claim |
| `RunSteps.ReleasingCut` | examples/hosts/sqlite/src/server.ts:2582-2837 | of a request that releases its gate: the interrupt, the events, then status with cursor |
| `RunSteps.OtherwiseSettlingCut` | examples/hosts/sqlite/src/server.ts:2645-2725 | of one that does not: the interrupt, then the events, and the ending of a rejection last |
| `ExecutorRuns.EveryRunKeepsInvariant` | examples/hosts/sqlite/src/server.ts:1692-1917 | every state reached without a crash is ended, suspended on the gate under the cursor, or asleep in the delay under the cursor |
| `ExecutorRuns.SliceKeeps` | examples/hosts/sqlite/src/server.ts:1762-1899 | the loop from any node ends in such a state |
| `ExecutorRuns.RunEndsOnce` | examples/hosts/sqlite/src/server.ts:1692-1917 | at most one event ends the run, nothing follows it, and the status is the one it names |
| `ExecutorRuns.TerminalIsFinal` | examples/hosts/sqlite/src/server.ts:3137-3204 | once terminal, nothing that can still happen changes row, log or interrupts |
| `ExecutorRuns.ActiveMeansWaiting` | examples/hosts/sqlite/src/server.ts:1839-1863 | an active interrupt implies the waiting status of its kind, no executor, no claim and the cursor on its node |
| `ExecutorRuns.ResolutionCloses` | examples/hosts/sqlite/src/server.ts:2616-2633 | a pending outcome leaves the interrupt active, every other written one closes it |
| `ExecutorRuns.EachNodeOnce` | examples/hosts/sqlite/src/server.ts:1762-1899 | without crashes, and where no two gates share an id so that a request for the first answers the second, the completed nodes are the first of the workflow in order, each once, and all when the run has completed |
| `ExecutorRuns.ReleaseKeepsOrderIff` | examples/hosts/sqlite/src/server.ts:2717-2725 | whatever the ids, a bearer request that releases a gate runs the nodes from the one it read to the gate again, and unless the run fails in that step order is kept exactly if it read the run at this gate |
| `ExecutorRuns.RepeatedIdRepeatsNode` | examples/hosts/sqlite/src/server.ts:2717-2725 | a run in which a request that read the run at one of two gates with one id sends it back to a node it has completed |
| `Recovery.RecoversInOrder` | examples/hosts/sqlite/src/server.ts:1731-1899 | with crashes between any two statements and restarts, the completed nodes but for adjacent repeats are those before the cursor or one more, all of them once run.completed is logged; event numbers are 0, 1, 2, ...; run.started is first and only once |
| `Recovery.CutAnywhereSound` | examples/hosts/sqlite/src/server.ts:3811-3833 | a step cut after any of its statements leaves a sound database |
| `Recovery.PlanAllowed` | examples/hosts/sqlite/src/server.ts:1692-1917 | every statement of every step keeps the database sound where it comes |
| `CrashEndings.EndingsCounted` | examples/hosts/sqlite/src/server.ts:675-693 | for every workflow and every sequence of crashes the log holds one ending event for each crash right after one, and one more, the last event, exactly when the run is terminal |
| `CrashEndings.EndsOnceUnlessCut` | examples/hosts/sqlite/src/server.ts:1817-1917 | without a crash between an ending event and its status at most one is ever logged, it is the last event, and the status is the one it names |
| `CrashEndings.CutLogsPastEnding` | examples/hosts/sqlite/src/server.ts:3811-3833 | after such a crash the log always goes past the ending, with the next launch of an orphan or the cancel of a run that still waits |
| `CrashEndings.CrashEndsTwice` | examples/hosts/sqlite/src/server.ts:1892-1893 | the shortest run that ends twice: a crash between the last event and the status makes the restarted run log its end again |
| `Dispatch.RunNodes` | examples/hosts/sqlite/src/server.ts:1762-1867 | the loop with its jumps back terminates, runs the nodes and leaves the decisions of the recursive specification, at most (P + 1) times the positions within the workflow and the limit |
| `Dispatch.StepDescends` | examples/hosts/sqlite/src/server.ts:1574-1591 | every step uses up one of the loops the logged decisions leave, or moves the cursor on |
| `Dispatch.DecidedFromPlans` | examples/hosts/sqlite/src/server.ts:1306-1365 | no supervisor asks for a worker past the longest plan |
| `Dispatch.DecisionByFields` | examples/hosts/sqlite/src/server.ts:1306-1365 | a supervisor adds one decision: the workers of the next entry of its plan, one worker the first time if it has no plan, and otherwise an end |
| `Dispatch.NextByFields` | examples/hosts/sqlite/src/server.ts:1367-1603 | where the loop goes from each kind of node, by how it ended and the last decision in the log: dispatch stops, goes on past an end, or returns to the first supervisor |
| `Dispatch.WalkFollows` | examples/hosts/sqlite/src/server.ts:1762-1867 | of two nodes one invocation runs in turn the second is the next, or the first supervisor after a dispatch |
| `Dispatch.LoopTerminatesWithin` | examples/hosts/sqlite/src/server.ts:1306-1603 | one invocation runs at most (P + 1) times as many nodes as there are positions within the workflow and the recursion limit, P the longest plan and at least 1 |
| `Dispatch.BoundIsMet` | examples/hosts/sqlite/src/server.ts:1306-1603 | a supervisor with a plan of p workers and a dispatch node run exactly that many, without a limit and under a limit of 2 |
| `Dispatch.WithoutPlanOneRound` | examples/hosts/sqlite/src/server.ts:1306-1365 | a supervisor without a plan asks for one worker, once, and then ends the loop |
| `Dispatch.LimitCapsExactlyBestRun` | examples/hosts/sqlite/src/server.ts:1746-1785 | for any plans and any limit: it caps the executions of a fresh run, for every way its nodes can end, exactly if it caps the run in which all end well |
| `Dispatch.LimitCapsExactlyWithoutJump` | examples/hosts/sqlite/src/server.ts:1746-1785 | where no plan has an entry without workers, a recursion limit within the workflow caps the executions of a fresh run, for every way its nodes can end, exactly if a straight pass below the limit comes to no jump |
| `Dispatch.EmptyEntryJumpsYetCapped` | examples/hosts/sqlite/src/server.ts:1346-1430 | with an entry that asks for no worker a run can come to a jump and still never pass its limit |
| `Dispatch.LimitCapsWithoutJump` | examples/hosts/sqlite/src/server.ts:1746-1785 | without such a jump any limit caps them |
| `Dispatch.JumpTakesDispatchBehindSupervisor` | examples/hosts/sqlite/src/server.ts:1574-1591 | such a jump takes a dispatch node behind a supervisor, both below the limit |
| `Lease.RunRow.AcquireClaim` | examples/hosts/sqlite/src/server.ts:408-413 | the claim is set and reported won exactly when free or expired on a run that is not terminal |
| `Lease.RunRow.RenewClaim` | examples/hosts/sqlite/src/server.ts:774-776 | only the holder's renewal moves the expiry |
| `Lease.RunRow.ReleaseClaim` | examples/hosts/sqlite/src/server.ts:414-416 | only the holder's release frees the claim |
| `Lease.AtMostOneExecutor` | examples/hosts/sqlite/src/server.ts:755-795 | while every executor renews within the lease no two ever execute the run, in any interleaving with claims, suspensions, ends and crashes, and until the run has ended the one executor holds the claim |
| `Lease.LateIsExactlyWhenDoubled` | examples/hosts/sqlite/src/server.ts:755-758 | a second process is let in exactly when the first is late |
| `Lease.StaleHolderIsPowerless` | examples/hosts/sqlite/src/server.ts:774-788 | nothing others do, stale holders' heartbeats and releases included, renews, shortens or removes a claim before it expires |
| `Lease.NoClaimOnTerminal` | examples/hosts/sqlite/src/server.ts:408-413 | no claim is granted on a terminal run |
| `ChainExpansion.ExpandChain` | examples/hosts/in-memory/src/workflow-chain-expansion.ts:187-243 | the loops give the specified fragment, or the first type id that does not resolve |
| `ChainExpansion.CarryCompensation` | examples/hosts/in-memory/src/workflow-chain-expansion.ts:424-471 | the loops give the specified nodes and policy, or the first refusal in the order the checks come |
| `ChainExpansion.RefResolvesToImage` | examples/hosts/in-memory/src/workflow-chain-expansion.ts:160-169 | a rewritten reference names the image of its node and keeps its port; an outside one is unchanged |
| `ChainExpansion.PrefixDotFree` | examples/hosts/in-memory/src/workflow-chain-expansion.ts:175-177 | the prefix is dot-free exactly when the expansion id is |
| `ChainExpansion.PrefixSpelled` | examples/hosts/in-memory/src/workflow-chain-expansion.ts:175-177 | the prefix is the chain id with its dots as underscores and the expansion id, each followed by an underscore |
| `ChainExpansion.ExpandedByFields` | examples/hosts/in-memory/src/workflow-chain-expansion.ts:187-243 | an expansion is refused with the first type that does not resolve, exactly if there is one; else each node keeps type and caption, has config and inputs substituted and carries no compensation |
| `ChainExpansion.CarriedByFields` | examples/hosts/in-memory/src/workflow-chain-expansion.ts:424-471 | carrying is refused for the first node whose compensation may not be carried, then for policies that differ; else the policy is the parent's, or the chain's where it has none |
| `ChainExpansion.DottedExpansionBreaksRefs` | examples/hosts/in-memory/src/workflow-chain-expansion.ts:160-177 | with a dot in the expansion id a rewritten reference no longer names the expanded node |
| `ChainExpansion.ExpandedIds` | examples/hosts/in-memory/src/workflow-chain-expansion.ts:198-219 | expanded ids are distinct, listed by idMap, and dot-free exactly when both parts are |
| `ChainExpansion.EndpointsResolve` | examples/hosts/in-memory/src/workflow-chain-expansion.ts:221-240 | each edge endpoint resolves through idMap or stays outside, with its port, condition and trigger rule kept |
| `ChainExpansion.ImagesMeet` | examples/hosts/in-memory/src/workflow-chain-expansion.ts:160-169 | renaming joins two names exactly if they were one or an outside name is the other's image |
| `ChainExpansion.PathsCorrespond` | examples/hosts/in-memory/src/workflow-chain-expansion.ts:221-240 | the paths of the expanded edges are those of the chain, edge for edge, when no outside reference is the image of a fragment node |
| `ChainExpansion.ClashAddsPath` | examples/hosts/in-memory/src/workflow-chain-expansion.ts:221-240 | where that fails, two edges that did not meet now do |
| `ChainExpansion.EachNodeItsOwn` | examples/hosts/in-memory/src/workflow-chain-expansion.ts:445-460 | with distinct ids stripping the prefix gives each node exactly what its own chain node declares |
| `ChainExpansion.RepeatedIdTakesLast` | examples/hosts/in-memory/src/workflow-chain-expansion.ts:433-460 | in any chain each carried node has exactly the compensation and the irreversibility the last chain node with its id declares |
| `ChainExpansion.ConflictIffDifferent` | examples/hosts/in-memory/src/workflow-chain-expansion.ts:462-470 | a policy conflict is raised exactly when both sides have a policy and they differ as JSON values |
| `Convergence.ProjectionIgnoresOrder` | examples/hosts/postgres/src/cross-engine-append.ts:94-106 | the projection of a channel is the same for every order of the log exactly if no two different events of that channel share sequence and id |
| `Convergence.TiesShowLogOrder` | examples/hosts/postgres/src/cross-engine-append.ts:94-106 | two events of a channel that share both stand next to each other in the projection in the order of the log, whatever else it holds |
| `Convergence.CheckOwnerSequenceMonotonic` | examples/hosts/postgres/src/cross-engine-append.ts:119-133 | the adjacent-pair loop accepts exactly the logs whose sequences all increase, and otherwise names the first pair that does not |
| `Convergence.MonotonicProjectsInOrder` | examples/hosts/postgres/src/cross-engine-append.ts:94-163 | a log that passes projects to the channel's values in log order with no collision |
| `Convergence.ProjectWithTieBreak` | examples/hosts/postgres/src/cross-engine-append.ts:149-163 | the counting loops give the projection and the number of events that share their sequence |
| `Convergence.CountsIffShared` | examples/hosts/postgres/src/cross-engine-append.ts:154-161 | an event is counted exactly if another one has its sequence |
| `Convergence.CollisionsIgnoreOrder` | examples/hosts/postgres/src/cross-engine-append.ts:149-163 | the number of collisions does not depend on the order of the log |
| `Convergence.ResolveIgnoresOrder` | examples/hosts/postgres/src/multi-region.ts:99-142 | for claims that can be resolved, winner, losers and redirects are the same for every order exactly if the run ids are distinct |
| `Convergence.RepeatedRunShowsOrder` | examples/hosts/postgres/src/multi-region.ts:122-125 | with a run id claimed twice, by whatever claims, exchanging the two exchanges the result |
| `Convergence.WinnerIsLeast` | examples/hosts/postgres/src/multi-region.ts:122-125 | the winner has the least run id, and the winner with the losers are the claims |
| `Convergence.ResolvesExactly` | examples/hosts/postgres/src/multi-region.ts:99-121 | it answers exactly for two claims or more that agree in tenant, endpoint and key |
| `Convergence.RedirectsToWinner` | examples/hosts/postgres/src/multi-region.ts:122-142 | each region is redirected to the winner's run under endpoint, colon and key, the winner's first and the losers' by rising run id |
| `Convergence.SubgroupsConverge` | examples/hosts/postgres/src/multi-region.ts:85-98 | resolving the survivors of subgroups gives the run id of the survivor of them all, and the same claim if no other has that run id |
| `Convergence.LabelsIgnoreOrder` | examples/hosts/postgres/src/multi-region.ts:153-165 | the metric label is the same for every order of the claims, even if a run id repeats |
| `Convergence.LabelSpelled` | examples/hosts/postgres/src/multi-region.ts:153-165 | the label is tenant, endpoint and the regions of the claims in code-unit order with bars between them |
| `Channel.Run.ChannelWrite` | examples/hosts/sqlite/src/server.ts:1262-1292 | one write prunes by age, appends, then cuts to size, on this channel only |
| `Channel.Run.Filter` | examples/hosts/sqlite/src/server.ts:1271-1281 | the filter keeps exactly the entries that are bare or not older than the horizon, in order |
| `Channel.ReplayLeaves` | examples/hosts/sqlite/src/server.ts:1262-1292 | what pruning at every write leaves are the entries that were fresh at each write since their own and never had maxSize entries behind them that had stayed fresh |
| `Channel.PruningRefinesExactly` | examples/hosts/sqlite/src/server.ts:1265-1292 | for all bounds, starts and clocks: that is the last maxSize of all entries still fresh at the end exactly if each of those was fresh at every write before and never so crowded |
| `Channel.WithoutSizeBound` | examples/hosts/sqlite/src/server.ts:1271-1281 | without a size bound: exactly if no entry fresh at the end was stale at a write before |
| `Channel.TtlAlone` | examples/hosts/sqlite/src/server.ts:1271-1281 | for an empty channel with a ttl alone: exactly if no write still fresh at the last one was stale at one between, which takes a clock that goes back |
| `Channel.ForwardClockExactly` | examples/hosts/sqlite/src/server.ts:1265-1292 | under a clock that never goes back only entries the channel starts with can be lost, bare ones included: exactly if one that is wanted at the end is crowded out at some write |
| `Channel.PruningRefinesFromScratch` | examples/hosts/sqlite/src/server.ts:1265-1292 | under such a clock, where what is there at first is in age order, pruning at every write leaves the last maxSize of all writes ever made that are not older than ttlMs |
| `Channel.EmptyChannelRefines` | examples/hosts/sqlite/src/server.ts:1265-1292 | for a channel that starts empty there is nothing more to ask |
| `Channel.ClockBackLosesEntries` | examples/hosts/sqlite/src/server.ts:1271-1281 | with a clock that goes back an entry pruned too early is missed |
| `Channel.BareEntriesAreLost` | examples/hosts/sqlite/src/server.ts:1277-1289 | a bare entry from before the ttl never expires, but the size bound may drop it first |
| `Der.Trim` | examples/hosts/postgres/src/jwt-validator.ts:132-137 | the loop strips leading zeros, all but the last byte, and puts one back before a set top bit |
| `Der.NormalizeSignature` | examples/hosts/postgres/src/jwt-validator.ts:119-145 | RS256 passes through, ES256 of another length than 64 is refused, the rest is encoded |
| `Der.NormalizedByAlgorithm` | examples/hosts/postgres/src/jwt-validator.ts:119-145 | RS256 signatures are passed through, ES256 ones refused exactly if not of 64 bytes and else encode the numbers of their two halves |
| `Der.TrimmedIsMinimal` | examples/hosts/postgres/src/jwt-validator.ts:132-137 | what is trimmed is a minimal, non-negative INTEGER content of the same value |
| `Der.EncodeDecodes` | examples/hosts/postgres/src/jwt-validator.ts:129-145 | the encoding is a DER SEQUENCE of two INTEGERs that decodes to the same two numbers, in at most 72 bytes |
| `Der.EncodingIsTheOnlyDer` | examples/hosts/postgres/src/jwt-validator.ts:129-145 | it is the only byte string that decodes to them |
| `Der.SignaturesStayDistinct` | examples/hosts/postgres/src/jwt-validator.ts:119-145 | every 64-byte signature is encoded, and two alike only if they are the same |
| `Sse.Response.FlushBatch` | examples/hosts/sqlite/src/server.ts:3399-3405 | a flush writes the buffer as one batch and empties it, or nothing when it is empty |
| `Sse.Response.Write` | examples/hosts/sqlite/src/server.ts:3411-3427 | an event is sent with its id, or buffered and flushed at once if it ends the run |
| `Sse.Response.CloseStream` | examples/hosts/sqlite/src/server.ts:3429-3436 | closing flushes what is left |
| `Sse.Response.Connect` | examples/hosts/sqlite/src/server.ts:3438-3454 | a connection sends the backlog after Last-Event-ID and closes if the run has ended |
| `Sse.Response.Receive` | examples/hosts/sqlite/src/server.ts:3456-3466 | a live event is sent and the stream closed if it ends the run |
| `Sse.DeliversBacklogAndHeard` | examples/hosts/sqlite/src/server.ts:3438-3467 | what is written or buffered is the backlog, then every event heard, in order; an unbuffered stream buffers nothing |
| `Sse.OpenStreamIsLogSlice` | examples/hosts/sqlite/src/server.ts:3368-3475 | in every interleaving of appends of this process and others, flushes and a client that goes, what was written and what is buffered is the backlog and the events heard, which is the log from the first event after Last-Event-ID up to the newest heard exactly if no event of another process came before one heard |
| `Sse.EndForcesFlush` | examples/hosts/sqlite/src/server.ts:3411-3436 | the event that ends the run is delivered in any interleaving, nothing stays in the buffer and the stream closes, with all of the log after Last-Event-ID written exactly if there was no gap |
| `Sse.BatchesWhenDue` | examples/hosts/sqlite/src/server.ts:3399-3436 | a batched stream writes exactly when the timer fires or an event ends the run, and then all it holds as one batch |
| `Sse.BacklogIsBuffered` | examples/hosts/sqlite/src/server.ts:3411-3454 | a backlog without an ending event is buffered whole |
| `Sse.ReconnectsDeliverOnce` | examples/hosts/sqlite/src/server.ts:3368-3475 | a chain of unbuffered reconnections, however cut and whether or not the run ends in one of them, delivers each event exactly once and in order up to the last id seen, exactly if in no connection an event got through behind one of another process |
| `Sse.NoGapIsWhole` | examples/hosts/sqlite/src/server.ts:3456-3467 | where no event of another process comes before one heard, that is so wherever a connection is cut |
| `Sse.SentContinues` | examples/hosts/sqlite/src/server.ts:3438-3475 | what is sent is how the log goes on, up to the first event heard behind one of another process, whose number is too high |
| `Sse.BatchesLeaveNoId` | examples/hosts/sqlite/src/server.ts:3399-3405 | batches carry no id, so a client of the buffered stream reconnects from where it began |
| `Sse.IdPastTheLogIsIgnored` | examples/hosts/sqlite/src/server.ts:3370-3375 | a Last-Event-ID past the log does not hold back later events with lower numbers: all that is heard is delivered |

## Left out

- AuditHistory.RangeAcceptedExactly: asks that the numbers in details are ones binary64 holds and member names are distinct, as those of the host's objects are.
- AuditTamper.SignedCheckpointsProvePrefix: says nothing of rows past the last checkpoint the table reaches, which no signature covers; AuditUnseen.TailRewritingUnseen shows they can be replaced.
- TxLedger.CommittedSerially: asks that no ROLLBACK fail on an open transaction that is not aborted; TxLedger.CommittedInEveryRun says what the tables are if one does, and TxLock.FailedRollbackLeaks when that can be seen.
- TxClients.InterleavedAsOneStepEach: asks the same, as do the theorems that follow from it: a piece of logAudit or of a vote that is left over and committed is no whole step.
- TxClients.NoVoteLost: does not model statements issued outside withTransaction on the same tables, such as a cancellation closing the gate, which would run inside whichever transaction is open.
- ExecutorRuns.EveryRunKeepsInvariant: does not model core.subWorkflow, which mirrors a child's status while executing, nor core.dispatch, whose loop is in Dispatch, nor a run whose workflow is no longer registered, which logs run.failed without run.started (examples/hosts/sqlite/src/server.ts:1696-1702).
- Recovery.RecoversInOrder: does not model a cancel request surviving a restart; runWorkflow writes running over it.
- Lease.AtMostOneExecutor: takes one clock for all processes.
- The human-readable detail strings of anomalies, error messages and event payloads.
- Text that is not well-formed UTF-16 when stored by SQLite, and sequences past the integers binary64 holds exactly.
- The shape check of refineFeedback and the comparison of correlation values inside a resolve request are one Boolean each; within one call the clock is read once.
- Intervals and limits read from the environment as non-numbers, and fractional maxSize.
- Last-Event-ID is an integer here; the source takes any finite number (examples/hosts/sqlite/src/server.ts:3370-3375).
- Key files, table triggers, schema migration, token generation, HTTP routing, authentication and idempotency replay.
- Parameter substitution and reference rewriting by regular expressions in chain expansion are function parameters.
- Postgres createCheckpoint, which reads and inserts outside the lock, and the Postgres copy of the verifier.
- Variable mapping between a dispatch node and its workers; a worker is an answer whether it completed.
- Memory entries, spans, metrics, webhooks and cost rollups written beside a run.
