# Verified model of the server's crime, alchemy and queueing logic

This project models, in Dafny, the pieces of a multiplayer OpenMW fork whose correctness rests on more than
one function, and proves what each is for. `dafny verify dfyconfig.toml` checks everything.

| module | models |
|---|---|
| ByteBuffers, CrimeCodec, CrimeCodecMethods | the binary codec of journaled crime results: as a format with laws, and as the Writer and Reader run it |
| IntentCodec, MutationCodec | the encodings that are hashed into request hashes, and the stored answers to explicit bounty requests |
| CrimeTypes, CrimeStore, CrimeTransitions | the crime state of each character and the journal, with the one-step commit; which commits the services issue |
| CrimeService, CrimeJudgement, CrimeSemantics | explicit bounty requests; judging an event from its witnesses; evaluating it against the store |
| CrimeLedger | whole runs of any number of connections: the ledger, exactly-once, what the journal gives back, retries |
| CrimeDeferral | events evaluated on top of each other before any is committed, against immediate evaluation |
| WitnessBuilder, CrimeAggression | how witnesses are chosen, and when they fight |
| AdminQueue | the admin mutation queue as a protocol of atomic steps, and as an object with one method per critical section |
| AlchemyInventory, AlchemyRecords, AlchemyRules, CraftStore, AlchemyService | the alchemy transaction: inventory arithmetic, record identity, validation and skill, the store, and the request itself |
| CollisionOwnership, CollisionCells | who holds which collision cells, the reference counts this drives, and which cells an observer needs |
| TileGroups | the flood fill over changed navmesh tiles |
| LoadOrder | the dependency sort of content files and the placing of Tribunal |
| ConfiguredCell | normalizing the name of a configured cell |
| Sorting, Wrappers | std::sort, std::unique, the order of std::string, and the option type |

Databases are values with one atomic step per transaction. Each database object also carries what other
connections write before each of its statements; that is arbitrary, so every contract about a service holds
under any interleaving. A ghost history, or a list of the object's own writes with the store each one met,
lets contracts say which writes a call made. A database of which no other connection writes any more is `Alone`;
for that case the contracts of the services also say what a call must achieve.

Where the code does less than it seems to promise, the model keeps the code and states when it holds:

- A theft that is seen and whose bounty overflows is rejected before the flag for the crime id is set. Its
  journal row breaks the rule that seen crimes advance the id, so a retry finds a corrupt result
  (`CrimeLedger.OverflowReadsBack`, `CrimeLedger.SeenOverflowIsCorrupt`). A rejected intent with a crime type
  outside the enumeration is unreadable as well (`CrimeLedger.InvalidIntentReadsBack`).
- Placing Tribunal in front of Bloodmoon can break the order that the sort established
  (`LoadOrder.MoveKeepsOrder`, `LoadOrder.RelocationCanBreakOrder`).
- When loading a collision cell fails, the rollback also releases acquires that were never made, so the
  counts of cells that other players hold can drop (`CollisionOwnership.RollbackRestoresCounts`,
  `CollisionOwnership.RollbackDropsAHeldCell`).
- An observation radius of two cells or more, seen from the very border of a cell, reaches cells that the
  scan never looks at (`CollisionCells.CollisionCellsForPlayer`).
- After a committed alchemy request that changed the statistics, the in-memory player is replaced by a copy
  made before the request, and its inventory with it. The mirror is right exactly when there was no success or
  the skill was at 100 already (`AlchemyService.MirrorIsRight`, `AlchemyService.StaleMirrorExample`).
- An alchemy commit is filed under the part of the request id before a NUL, but looked up under the whole id
  (`CraftStore.FoundAgain`). With a NUL the committed request is not found again, so it is not replayed
  (`AlchemyService.ExecuteAgain`); and when a row stands under the shorter id, a proposal enters itself without
  end (`AlchemyService.EndlessExactly`, `AlchemyService.EndlessExample`).
- When another connection commits the first event of a deferred chain in between, its duplicate is passed over
  and the rest of the chain overwrites what that commit did to the bounty (`CrimeDeferral.PassedOver`,
  `CrimeDeferral.LostBounty`).
- A rejected bounty request whose id holds a NUL is journaled under the part of the id before the NUL, so the
  request that has this shorter id is refused as a duplicate (`CrimeService.FiledUnderItself`,
  `CrimeService.NulTakesTheShorterKey`).
- Raising the alarm of a pickpocket's victim from zero can end a fight, because no alarm at all counts as
  full alarm there (`CrimeAggression.AlarmNeverCalms`).

## Model

| member | source | states |
|---|---|---|
| CrimeCodec.DecodeEncode | apps/openmw-server/CrimeSemanticService.cpp:367-464 | a result within the stored limits reads back as itself; one that fails only the final check across fields is refused |
| CrimeCodec.EncodeDecode | apps/openmw-server/CrimeSemanticService.cpp:404-464 | a byte string that decodes re-encodes to exactly itself, so there is one encoding per result and no trailing or padded form is accepted |
| CrimeCodec.SurvivesJournal | apps/openmw-server/CrimeSemanticService.cpp:367-464 | a result survives encoding and decoding exactly when it is within the stored limits and consistent |
| CrimeCodec.InvalidTypeIsRefused | apps/openmw-server/CrimeSemanticService.cpp:404-464 | a result of the current version whose crime type is outside the enumeration never reads back, whatever the rest of it is |
| CrimeCodec.VerdictSurvives | apps/openmw-server/CrimeSemanticService.cpp:367-464 | whatever else is lost, a payload that reads back has the verdict and the error it was written with |
| CrimeCodec.WitnessesRead | apps/openmw-server/CrimeSemanticService.cpp:367-464 | the witness list, each with its optional observation and generation list, reads back from behind any prefix |
| CrimeCodec.WitnessesWerePut | apps/openmw-server/CrimeSemanticService.cpp:404-464 | a witness list that was read had been written in exactly the bytes consumed |
| CrimeCodec.ObservationReads | apps/openmw-server/CrimeSemanticService.cpp:307-365 | an observation within the stored limits reads back, optional fields and generations included |
| CrimeCodec.ObservationWasPut | apps/openmw-server/CrimeSemanticService.cpp:333-365 | an observation that was read had been written in exactly the bytes consumed |
| CrimeCodec.AggressionReads | apps/openmw-server/CrimeSemanticService.cpp:225-264 | an aggression result reads back when its terms are finite and in range |
| CrimeCodec.AggressionWasPut | apps/openmw-server/CrimeSemanticService.cpp:241-264 | an aggression result that was read is in range and had been written in exactly the bytes consumed |
| CrimeCodec.StateReads | apps/openmw-server/CrimeSemanticService.cpp:203-223 | a valid crime state reads back |
| CrimeCodec.StateWasPut | apps/openmw-server/CrimeSemanticService.cpp:212-223 | a crime state that was read is valid and had been written in exactly the bytes consumed |
| CrimeCodec.ResultReads | apps/openmw-server/CrimeSemanticService.cpp:367-464 | a whole result reads back from behind any prefix |
| CrimeCodec.ResultWasPut | apps/openmw-server/CrimeSemanticService.cpp:404-464 | a whole result that was read is within the stored limits and had been written in exactly the bytes consumed; the check across fields comes afterwards |
| ByteBuffers.IntReads | apps/openmw-server/CrimeSemanticService.cpp:25-40 | little-endian integers of every width read back |
| ByteBuffers.IntWasPut | apps/openmw-server/CrimeSemanticService.cpp:76-95 | an integer that was read had been written in exactly the bytes consumed |
| ByteBuffers.TextReads | apps/openmw-server/CrimeSemanticService.cpp:43-49 | a length-prefixed string within the limit of the reader reads back |
| ByteBuffers.TextWasPut | apps/openmw-server/CrimeSemanticService.cpp:97-105 | a string that was read is within the limit and had been written in exactly the bytes consumed |
| ByteBuffers.Writer.Little | apps/openmw-server/CrimeSemanticService.cpp:25-39 | the shift loop appends exactly the little-endian bytes of the value |
| ByteBuffers.Reader.Little | apps/openmw-server/CrimeSemanticService.cpp:76-94 | the accumulating loop yields the value and advances, or fails when too few bytes are left |
| ByteBuffers.Reader.String | apps/openmw-server/CrimeSemanticService.cpp:97-105 | reading a string agrees with the format, its limit and its failure cases |
| CrimeCodecMethods.EncodeResult | apps/openmw-server/CrimeSemanticService.cpp:367-402 | the writer loops produce exactly the encoding the laws speak about |
| CrimeCodecMethods.DecodeResult | apps/openmw-server/CrimeSemanticService.cpp:404-464 | the reader loops and their checks accept and yield exactly what the laws speak about; every exception is a refusal |
| IntentCodec.EncodeIntentInjective | apps/openmw-server/CrimeSemanticService.cpp:148-201 | two intents with the same encoding are equal in every encoded field, across the optional victim, the strings and generation lists of any lengths |
| IntentCodec.Encode | apps/openmw-server/CrimeSemanticService.cpp:266-290 | the writer produces exactly that encoding |
| IntentCodec.GenerationsSame | apps/openmw-server/CrimeSemanticService.cpp:283-288 | generation lists that end at the same place of the same bytes are the same list, even when the 32-bit count has wrapped |
| MutationCodec.EncodeRequestInjective | components/openmw-mp/PlayerCrimeState.cpp:235-248 | two bounty requests with the same encoding are the same request |
| MutationCodec.DecodeEncodeMutation | components/openmw-mp/PlayerCrimeState.cpp:250-281 | the result of a bounty request survives its journal row exactly when it is within the stored limits |
| MutationCodec.EncodeDecodeMutation | components/openmw-mp/PlayerCrimeState.cpp:262-281 | an accepted row is the encoding of what it decodes to |
| CrimeStore.WorkMovesForward | apps/openmw-server/PlayerDatabase.cpp:5511-5615 | any single write keeps the states valid, keeps every journal row, never lowers a revision, and changes a state only with its revision |
| CrimeStore.RunMovesForward | apps/openmw-server/PlayerDatabase.cpp:5483-5635 | the same over every sequence of writes: equal revision means equal state |
| CrimeStore.CommittedState | apps/openmw-server/PlayerDatabase.cpp:5511-5615 | a commit that succeeds met an unused key and the expected revision, and left exactly the new state and the journal row |
| CrimeStore.CommitsExactly | apps/openmw-server/PlayerDatabase.cpp:5511-5615 | exactly which commits take effect: well-formed, under an unused key, for a character of the account at the expected revision; one that keeps the revision keeps the whole state; no other character is touched |
| CrimeStore.PlayerDatabase.Commit | apps/openmw-server/PlayerDatabase.cpp:5617-5635 | one transaction: other connections may write before it, then key, revision and both tables are handled in one step |
| CrimeStore.PlayerDatabase.InsertRejected | apps/openmw-server/PlayerDatabase.cpp:5483-5509 | a rejection row is added under the key as it is filed, with the id cut at its first NUL, unless that key already has a row |
| CrimeStore.PlayerDatabase.LoadState | apps/openmw-server/PlayerDatabase.cpp:5391-5440 | the loaded state is the one the character has at that moment of the history |
| CrimeStore.PlayerDatabase.CommitBatch | apps/openmw-server/PlayerDatabase.cpp:3056-3122 | several commits in one transaction: all of them stand in the history one after the other, or nothing has been written |
| CrimeStore.BatchLeavesRows | apps/openmw-server/PlayerDatabase.cpp:3094-3110 | after a batch that goes through, every request of it has its row with its own hash, also those that were passed over |
| CrimeStore.BatchOnce | apps/openmw-server/PlayerDatabase.cpp:3094-3110 | accepting the same batch again, whatever has been written since, changes nothing |
| CrimeTransitions.CommitIsHonest | apps/openmw-server/CrimeService.cpp:46-59 | a commit prepared from a state that was loaded earlier stays attributable to that state and to the request whose hash it carries, however the history grows |
| CrimeService.TransitionAdvances | apps/openmw-server/CrimeService.cpp:25-44 | the next state that the transition computes is the one evaluate computed on the same base; it throws exactly where the bounty, the crime id or the revision would overflow, and otherwise moves these three by what was asked and leaves the paid id and the schema alone |
| CrimeService.CommitAuthoritativeTransition | apps/openmw-server/CrimeService.cpp:10-63 | reply, exception and write for any load and any later store at the commit |
| CrimeService.CrimeService.Execute | apps/openmw-server/CrimeService.cpp:65-202 | a committed answer is one commit of this very request on a state the character had; a journaled key is answered from its row without a write; any other answer is what the row now under the key prescribes, the error that the checks give on a state the character had during the call and that the call has journaled, or a stale revision after the revision moved on; nothing is written but the commit of the request or the rejection that is answered; undisturbed, a request that nothing stands against commits and one that is decided against is journaled |
| CrimeService.CrimeService.ExecuteNew | apps/openmw-server/CrimeService.cpp:102-202 | the same for a key without a row |
| CrimeService.ExecuteUndisturbed | apps/openmw-server/CrimeService.cpp:104-189 | undisturbed, under a fresh key, told by request and stored state alone: it commits exactly when it is well-formed, made for the stored revision or for any, the revision can grow and the bounty stays in range, and leaves exactly that state; for another revision it is refused as stale; a refusal changes no state, and no other character is ever touched |
| CrimeService.DecisionMeaning | apps/openmw-server/CrimeService.cpp:124-164 | exactly when a request is accepted, exactly when it gets each of the errors, and the state it leaves |
| CrimeService.CrimeService.CommitAdjustment | apps/openmw-server/CrimeService.cpp:159-202 | the four replies of the commit: a settled request, the row under the key, a revision that moved on, or an exception that the store accounts for |
| CrimeService.CommitFails | apps/openmw-server/CrimeService.cpp:46-59 | the commit of a decided request is well-formed: an exception means a foreign character, an injected failure or an empty hash, and on an unchanged state with a free key it goes through |
| CrimeService.FiledUnderItself | apps/openmw-server/PlayerDatabase.cpp:5483-5509 | a rejection is filed under the key of its request exactly when the id holds no NUL |
| CrimeService.NulTakesTheShorterKey | apps/openmw-server/PlayerDatabase.cpp:5442-5509 | otherwise the row takes the key of the shorter id: a request with that id is refused as a conflict although nothing stood in its way |
| CrimeService.CrimeService.Replay | apps/openmw-server/CrimeService.cpp:80-100 | the three answers from a row: conflict, corrupt, or the stored result |
| CrimeService.CrimeService.MutationTarget | apps/openmw-server/CrimeService.cpp:124-157 | the error is that of the first failing check; without one the request is well-formed and made for the revision of the loaded state or for any, and the bounty is the requested one and in range |
| CrimeService.CrimeService.PrepareAdjustment | apps/openmw-server/CrimeService.cpp:159-178 | the prepared commit settles the paid crimes exactly when the bounty reaches zero and raises the revision by one |
| CrimeJudgement.IdentityKeyOrder | apps/openmw-server/CrimeSemanticService.cpp:143-146 | the key orders identities as the tuples are ordered and tells them apart |
| CrimeJudgement.HasAdjacentDuplicate | apps/openmw-server/CrimeSemanticService.cpp:642-648 | in the sorted list, adjacent duplicates exist exactly when any two witnesses share an identity |
| CrimeJudgement.PerceptionPass | apps/openmw-server/CrimeSemanticService.cpp:650-709 | each witness is classified and observed on its own, and the crime is seen exactly when somebody perceived it |
| CrimeJudgement.ReportingPass | apps/openmw-server/CrimeSemanticService.cpp:711-738 | reports, aggression and the bounty flag follow from the first pass, with the input found again by identity |
| CrimeJudgement.Assess | apps/openmw-server/CrimeSemanticService.cpp:619-753 | the loops and early exits compute exactly the judgement the lemmas speak about |
| CrimeJudgement.JudgeIgnoresOrder | apps/openmw-server/CrimeSemanticService.cpp:562-753 | the judgement does not depend on the order in which the witnesses are given |
| CrimeJudgement.BountyMeaning | apps/openmw-server/CrimeSemanticService.cpp:641-753 | a valid event judged on its own evidence: seen exactly when somebody who can witness observes the offender, charged exactly when moreover somebody who can witness, not necessarily the same, has full alarm; each witness is reported on for its own candidate, with observation, report and aggression input of that candidate; accepted exactly when the bounty is an int32 |
| CrimeJudgement.SeenMeaning | apps/openmw-server/CrimeSemanticService.cpp:650-709 | the crime is seen exactly when some candidate near enough, an NPC, enabled, alive, conscious and unrelated, is asked about as the observer, with the offender as the target, and the observation is positive |
| CrimeJudgement.OneQuestion | apps/openmw-server/CrimeSemanticService.cpp:678-703 | exactly one question is asked about a candidate: whether it observes the offender, on the evidence of the intent; by awareness for a victim that is aware or assaulted, by hearing for other witnesses of a murder, and otherwise by sight, with both raised to the height of the eyes |
| CrimeJudgement.WitnessMeaning | apps/openmw-server/CrimeSemanticService.cpp:653-738 | what is reported about a candidate in both passes, field by field, the aggression input included |
| CrimeJudgement.EligibilityMeaning | apps/openmw-server/CrimeSemanticService.cpp:660-675 | each reason for leaving a candidate out applies exactly when none of the earlier ones does, and a candidate without a reason can witness |
| CrimeJudgement.BountyAmount | apps/openmw-server/CrimeSemanticService.cpp:509-534 | a theft costs the value times the multiplier, rounded down and at least one, unless that is more than an int32; each other crime costs its own amount |
| CrimeJudgement.CanonicalGenerationsLoop | apps/openmw-server/CrimeSemanticService.cpp:471-480 | the loop accepts exactly the strictly ascending lists of named, non-zero generations |
| CrimeJudgement.BountyFor | apps/openmw-server/CrimeSemanticService.cpp:509-534 | a bounty is never negative, and only a theft can overflow |
| CrimeSemantics.CrimeSemanticService.Evaluate | apps/openmw-server/CrimeSemanticService.cpp:562-842 | every write is an honest commit of the event or the rejection that is answered, so a replayed answer has written no row; exactly a committed outcome has an effect, and one; the commit is the judgement on the state it met, and row, result and stored state agree; a pending commit is the one for the given starting state or for a state the character had during the call, and has written nothing; any other answer is what the row now under the key prescribes, a judgement that rejects or does not fit on such a state and that the call has journaled, or a stale revision after three moves of the revision; undisturbed, a first evaluation does exactly what the judgement says; only the store itself can make it throw |
| CrimeSemantics.CrimeSemanticService.EvaluateNew | apps/openmw-server/CrimeSemanticService.cpp:597-841 | the same for an event without a row, over the three rounds |
| CrimeSemantics.CrimeSemanticService.CommitLoop | apps/openmw-server/CrimeSemanticService.cpp:755-841 | the three rounds for an accepted judgement, with the same answers and writes |
| CrimeSemantics.CrimeSemanticService.CommitLoopRound | apps/openmw-server/CrimeSemanticService.cpp:757-835 | one round: an overflow rejection on a state that fails the guards, a pending commit on the starting state, or a commit attempt; it is repeated only when the stored revision has moved on |
| CrimeSemantics.CrimeSemanticService.CommitRound | apps/openmw-server/CrimeSemanticService.cpp:795-835 | whatever is written between the two loads, none of the exceptions of the transition can occur, the persisted state is the one in the journaled result, and an answer without a commit comes from the row under the key |
| CrimeSemantics.CrimeSemanticService.FromRow | apps/openmw-server/CrimeSemanticService.cpp:815-832 | the answer to a duplicate is what the row of the journal prescribes, with the state as it is then |
| CrimeSemantics.CrimeSemanticService.Replay | apps/openmw-server/CrimeSemanticService.cpp:575-595 | the three answers from a row, without a write |
| CrimeSemantics.CrimeSemanticService.Reject | apps/openmw-server/CrimeSemanticService.cpp:599-617 | a rejection touches nothing but the journal, and that only for a well-formed id and source |
| CrimeSemantics.OnlyTheStoreRefuses | apps/openmw-server/CrimeSemanticService.cpp:795-809 | the commit evaluate issues is well-formed, so an exception means a foreign character or an injected failure, and on an unchanged state with a free key it goes through |
| CrimeSemantics.TransitionCases | apps/openmw-server/CrimeService.cpp:10-63 | the transition of a round passes every check: a stale revision at its load and the reply to its commit are all that can come back |
| CrimeSemantics.UndisturbedMeaning | apps/openmw-server/CrimeSemanticService.cpp:562-841 | undisturbed, the first evaluation of a valid event, told by the event, its witnesses and the stored state: it commits exactly when the bounty is an int32 and the state has room, and then charges the bounty when the crime was seen and reported, counts the crime when it was seen and is no werewolf exposure, and moves the revision when one of them did; otherwise it is an overflow and nothing changes; nobody else is touched |
| CrimeSemantics.SameRevision | apps/openmw-server/CrimeService.cpp:16-24 | a later load sees the same state or a greater revision |
| CrimeLedger.SessionsAreHonest | apps/openmw-server/CrimeSemanticService.cpp:562-842 | when every write of a shared history is made by a connection that only calls the two services, whenever it was opened and however the calls interleave, every commit and every rejection of the history came from one of their requests |
| CrimeLedger.LedgerOfSessions | apps/openmw-server/CrimeSemanticService.cpp:755-841 | in such a history the commits have causes, and the bounty, the revision, the crime id and the paid id of a character are what these add up to |
| CrimeLedger.LedgerHolds | apps/openmw-server/CrimeSemanticService.cpp:755-841 | after any run, for any attribution of its commits to requests with the same hash, the bounty is the fold of the journaled deltas and the explicit requests and in range, the revision counts the state-changing commits, the crime id counts the seen crimes other than werewolf exposures, and the paid id is the crime id at the last explicit request that left no bounty |
| CrimeLedger.OneRequestPerRevision | apps/openmw-server/CrimeService.cpp:129-133 | a bounty request that names an expected revision takes effect only at that revision, and of all requests that name it, under whatever keys, at most one takes effect in any run |
| CrimeLedger.SettledAtItsRevision | apps/openmw-server/CrimeService.cpp:129-166 | a committed request that names a revision reports the next one |
| CrimeLedger.OneCause | components/openmw-mp/PlayerCrimeState.cpp:235-248 | a commit that took effect has one cause: two candidates that the hash tells apart are the same explicit request, or the same intent with the same bounty, crime count and state, so the ledger reads in one way only |
| CrimeLedger.BookedMetItsBase | apps/openmw-server/CrimeService.cpp:46-59 | a commit that took effect met exactly the state it was prepared from, however long before |
| CrimeLedger.OncePerKey | apps/openmw-server/PlayerDatabase.cpp:5511-5615 | a key takes effect at most once in a run, and never when a row was filed under it before |
| CrimeLedger.AcceptedRowIsBooked | apps/openmw-server/PlayerDatabase.cpp:5442-5615 | in such a history a row that is marked or reads as accepted was put there by exactly one commit, which took effect, with this payload and hash |
| CrimeLedger.AcceptedAnswerIsBooked | apps/openmw-server/CrimeSemanticService.cpp:562-842 | an evaluation that says accepted, the first or a replayed one, at whatever time and under any interference, belongs to exactly one booked commit of that event, which holds the answered result |
| CrimeLedger.AcceptedReplyIsBooked | apps/openmw-server/CrimeService.cpp:65-202 | the same for an explicit request |
| CrimeLedger.RefusalReadsAsRefusal | apps/openmw-server/CrimeSemanticService.cpp:599-617 | a rejection row of either service never reads as accepted |
| CrimeLedger.AcceptedReadsBack | apps/openmw-server/CrimeSemanticService.cpp:711-753 | an accepted event reads back exactly when its witnesses are storable |
| CrimeLedger.WitnessesStorable | apps/openmw-server/CrimeSemanticService.cpp:650-738 | with in-range observations and finite aggression terms every witness of a judgement is storable |
| CrimeLedger.InvalidIntentReadsBack | apps/openmw-server/CrimeSemanticService.cpp:619-648 | a rejected intent reads back exactly when its crime type is inside the enumeration, and is corrupt otherwise |
| CrimeLedger.OverflowReadsBack | apps/openmw-server/CrimeSemanticService.cpp:740-751 | an overflowing theft reads back exactly when nobody saw it; a seen one is corrupt, because the rejection comes before the crime-id flag |
| CrimeLedger.LoopOverflowReadsBack | apps/openmw-server/CrimeSemanticService.cpp:757-769 | the overflow found in the commit loop is rejected with the flags in place, so its row reads back exactly when the witnesses are storable |
| CrimeLedger.RejectionReadsBack | apps/openmw-server/CrimeSemanticService.cpp:599-769 | over all rejections of evaluate: with storable witnesses the row reads back exactly when the crime type is inside the enumeration and it is not a seen theft whose bounty overflows |
| CrimeLedger.SeenOverflowIsCorrupt | apps/openmw-server/CrimeSemanticService.cpp:740-751 | such a seen theft exists: a concrete policy, intent and witness whose journal row is refused |
| CrimeLedger.EvaluateTwice | apps/openmw-server/CrimeSemanticService.cpp:574-595 | an event is committed and its id is sent again after others have written what they like: nothing more is written, the same intent gets its first result back when that is storable, and another intent is refused as a conflict unless the hash confuses the two |
| CrimeLedger.RejectedTwice | apps/openmw-server/CrimeSemanticService.cpp:574-617 | a rejected well-formed event has been journaled by the call; sent again while its row stands, it writes nothing and gets what the row reads as, with the same verdict and error, or CORRUPT_STORED_RESULT exactly when it does not read back |
| CrimeLedger.RequestTwice | apps/openmw-server/CrimeService.cpp:80-122 | an explicit request that was committed, or whose rejection stands, is sent again: its first result comes back and nothing is written |
| CrimeDeferral.DeferEach | apps/openmw-server/Server.cpp:13968-14035 | events evaluated on top of each other without a commit: whatever others do meanwhile, nothing is written and the pending commits are the chain that starts on a state the character had during the calls; undisturbed, every fresh event that fits gets its pending commit |
| CrimeDeferral.ChainCommits | apps/openmw-server/Server.cpp:13948-14041 | the pending commits of distinct fresh events line up in their revisions, all succeed when applied in order, and leave the end of the chain, one row for each event with its result, and nothing else |
| CrimeDeferral.EvaluateEach | apps/openmw-server/CrimeSemanticService.cpp:757-842 | immediate evaluation of the same events, undisturbed, leaves the store that applying the chain leaves, and gives the results of the chain |
| CrimeDeferral.AcceptDeferred | apps/openmw-server/Server.cpp:13968-14041 | deferring first and accepting the chain in one transaction: all of it or nothing; undisturbed it leaves the store that immediate evaluation leaves; under any interference each of its commits counts in the ledger, unless a duplicate was passed over |
| CrimeDeferral.NewMeansCommitted | apps/openmw-server/PlayerDatabase.cpp:3094-3110 | a batch for distinct requests without rows that goes through has committed all of them and added no other row |
| CrimeDeferral.PassedOver | apps/openmw-server/PlayerDatabase.cpp:3094-3110 | when the first of two events was committed elsewhere meanwhile, the second commit overwrites the state: the bounty is right exactly when the other commit left what was expected |
| CrimeDeferral.LostBounty | apps/openmw-server/PlayerDatabase.cpp:3094-3110 | a store and a chain for which the bounty is wrong |
| CrimeDeferral.ChainIsMade | apps/openmw-server/Server.cpp:14021-14023 | each commit of a chain is made from the state that the events before it leave |
| WitnessBuilder.WitnessesIncrease | apps/openmw-server/CrimeWitnessBuilder.cpp:124-257 | the witnesses have strictly increasing identities |
| WitnessBuilder.BuildIgnoresListingOrder | apps/openmw-server/CrimeWitnessBuilder.cpp:100-257 | the witnesses do not depend on the order in which cells list their actors, nor on how the sort arranges ties |
| WitnessBuilder.BuiltListIsAccepted | apps/openmw-server/CrimeWitnessBuilder.cpp:134-257 | with the same offender, victim and radius a built list passes the checks of evaluate exactly when it has at most 1024 entries, every member is Eligible there, and it is already in the order evaluate sorts into |
| WitnessBuilder.IncludedIsEligible | apps/openmw-server/CrimeWitnessBuilder.cpp:174-253 | an included actor with a snapshot of its own becomes a valid candidate that the evaluator finds Eligible |
| WitnessBuilder.WitnessesAre | apps/openmw-server/CrimeWitnessBuilder.cpp:100-253 | the witnesses are exactly the actors that a candidate cell lists, or the victim that none lists, whose identity stands in the list once and who qualify, each as the candidate that describes it |
| WitnessBuilder.IncludedMeaning | apps/openmw-server/CrimeWitnessBuilder.cpp:144-253 | an actor is included exactly when its snapshot is recent and agrees in cell and generations, it is near enough and able, and its alarm, fight and relationship, delegated or its own, are known and allow it; the candidate carries exactly these values |
| WitnessBuilder.LeftOutMeaning | apps/openmw-server/CrimeWitnessBuilder.cpp:144-172 | a stale snapshot, a wrong cell, a wrong generation and a distance are the reason exactly when nothing earlier is |
| WitnessBuilder.Build | apps/openmw-server/CrimeWitnessBuilder.cpp:84-257 | witnesses and one decision per actor, for a sorted arrangement of the enumerated actors and the looked-up victim |
| WitnessBuilder.Gather | apps/openmw-server/CrimeWitnessBuilder.cpp:100-122 | the actors of the candidate cells, and the victim when no cell lists it |
| WitnessBuilder.CountIdentities | apps/openmw-server/CrimeWitnessBuilder.cpp:129-131 | the counts of the identities |
| WitnessBuilder.CountIgnoresOrder | apps/openmw-server/CrimeWitnessBuilder.cpp:129-131 | which identities are duplicates does not depend on the listing order |
| CrimeAggression.CalculateCrimeAggression | apps/openmw-server/CrimeAggression.cpp:15-97 | whether it is evaluated, whether it is a fight, the final fight value of 100 or the base, and every term |
| CrimeAggression.Clamp | apps/openmw-server/CrimeAggression.cpp:89-95 | the fight term stays between zero and what is missing to 100, and a fight is one that reaches it |
| CrimeAggression.FightMeaning | apps/openmw-server/CrimeAggression.cpp:18-97 | the decision from the settings of each crime alone: an input in bounds ends in a fight exactly when the base fight is 100 or it and the alarm share of the crime, disposition and distance terms add up to 100 |
| CrimeAggression.FartherIsNotWorse | apps/openmw-server/CrimeAggression.cpp:76-93 | with a non-negative multiplier, moving away never starts a fight |
| CrimeAggression.AlarmNeverCalms | apps/openmw-server/CrimeAggression.cpp:62-93 | raising the alarm from one value to another never stops a fight, exactly but for the victim of a pickpocket that had none and does not get the full one |
| CrimeAggression.MoreAlarmIsNotBetter | apps/openmw-server/CrimeAggression.cpp:62-93 | the same for a single fight |
| CrimeAggression.UnalarmedVictimFightsMore | apps/openmw-server/CrimeAggression.cpp:63-69 | for every alarm short of full, a fight that such a victim stops |
| CrimeAggression.GreaterBountyIsWorse | apps/openmw-server/CrimeAggression.cpp:99-111 | a greater bounty is never met with less enforcement |
| CrimeAggression.EnforcementMeaning | apps/openmw-server/CrimeAggression.cpp:99-111 | below the threshold nothing happens and from its multiple on there is combat, as long as both settings are positive |
| AdminQueue.InvariantPreserved | apps/openmw-server/AdminMutationQueue.hpp:48-144 | every step of every thread keeps the protocol invariant |
| AdminQueue.RunInvariant | apps/openmw-server/AdminMutationQueue.hpp:48-144 | the invariant holds after every interleaving |
| AdminQueue.ExactlyOnePlace | apps/openmw-server/AdminMutationQueue.hpp:48-144 | an unfinished request is in exactly one place, the pending list or the hands of one thread; a completed one is in none |
| AdminQueue.TerminalStays | apps/openmw-server/AdminMutationQueue.hpp:60-140 | a finished request never changes its state or response again and is never executed again |
| AdminQueue.AtMostOnce | apps/openmw-server/AdminMutationQueue.hpp:88-123 | the executor runs at most once per request in every interleaving |
| AdminQueue.AnswersAreTruthful | apps/openmw-server/AdminMutationQueue.hpp:59-86 | an answer is the stored response of a finished request, now and after any continuation; a cancelled request has not been and never will be executed |
| AdminQueue.AnswersComeFromTheRun | apps/openmw-server/AdminMutationQueue.hpp:59-144 | told by the steps of the run alone: an answer comes with exactly one step at which a drainer that had taken this request called the executor, and is what the executor returned there, or the 500 response when it threw; or no step executed it and exactly one called it off, with the 504 response at the timeout of its own waiter and the 503 response at a shutdown |
| AdminQueue.AnsweredToItsWaiter | apps/openmw-server/AdminMutationQueue.hpp:60-86 | every answer belongs to a step at which a thread stopped waiting for the very request that it had begun to wait for |
| AdminQueue.EveryWaitIsAnswered | apps/openmw-server/AdminMutationQueue.hpp:60-86 | every wait that ended, by returning or by calling its request off, was answered |
| AdminQueue.RunIsRemembered | apps/openmw-server/AdminMutationQueue.hpp:48-144 | after any run the queue accepts exactly when no shutdown has begun, each request has the type and cell of its own enqueue, and a waiting thread waits for what it began to wait for |
| AdminQueue.ClosedForGood | apps/openmw-server/AdminMutationQueue.hpp:48-57 | once a shutdown has begun nothing is enqueued any more |
| AdminQueue.RunTerminalStays | apps/openmw-server/AdminMutationQueue.hpp:60-140 | finished requests stay finished over every further run |
| AdminQueue.OnePlacePreserved | apps/openmw-server/AdminMutationQueue.hpp:88-144 | taking, running and letting go of requests never duplicates one |
| AdminQueue.AdminMutationQueue.Enqueue | apps/openmw-server/AdminMutationQueue.hpp:48-57 | one critical section: the new request is pending, or the queue is closed |
| AdminQueue.AdminMutationQueue.WaitTimesOut | apps/openmw-server/AdminMutationQueue.hpp:69-83 | a queued request is cancelled with a timeout, a running one is waited for |
| AdminQueue.AdminMutationQueue.WaitReturns | apps/openmw-server/AdminMutationQueue.hpp:84-86 | the stored response is returned |
| AdminQueue.AdminMutationQueue.DrainSwap | apps/openmw-server/AdminMutationQueue.hpp:90-94 | the pending list moves into the hands of the draining thread |
| AdminQueue.AdminMutationQueue.DrainTake | apps/openmw-server/AdminMutationQueue.hpp:96-103 | the next request is taken to run when it is still queued, and skipped otherwise |
| AdminQueue.AdminMutationQueue.Execute | apps/openmw-server/AdminMutationQueue.hpp:105-114 | the step at which the executor yields a response or throws |
| AdminQueue.AdminMutationQueue.Publish | apps/openmw-server/AdminMutationQueue.hpp:116-121 | the response is stored and the request completed |
| AdminQueue.AdminMutationQueue.CancelSwap | apps/openmw-server/AdminMutationQueue.hpp:125-132 | the queue closes and the pending list moves to the cancelling thread |
| AdminQueue.AdminMutationQueue.CancelTake | apps/openmw-server/AdminMutationQueue.hpp:133-143 | the next request is cancelled when it is still queued, and skipped otherwise |
| TileGroups.LabelTiles | apps/navmeshtool/worldspacedata.cpp:263-304 | every changed tile is labelled; two share a label exactly when an 8-neighbour path of changed tiles joins them; the labels are exactly 0 to n-1, numbered in listing order |
| TileGroups.Flood | apps/navmeshtool/worldspacedata.cpp:272-301 | the search labels exactly what is reachable and terminates |
| TileGroups.Visit | apps/navmeshtool/worldspacedata.cpp:280-300 | the scan of the neighbourhood labels and enqueues every unlabelled changed neighbour and nothing else |
| TileGroups.SettledMeansConnected | apps/navmeshtool/worldspacedata.cpp:263-304 | a sound labelling in which every neighbourhood has one label is connectivity |
| TileGroups.DetectDisconnectedTileGroups | apps/navmeshtool/worldspacedata.cpp:256-338 | with one group nothing is reported; otherwise exactly the references not connected to the first of the groups with most references, in order; a reference to an unchanged tile throws |
| TileGroups.CountReferences | apps/navmeshtool/worldspacedata.cpp:311-314 | each counter is the number of references connected to a tile of its group |
| TileGroups.FirstMaximum | apps/navmeshtool/worldspacedata.cpp:316-318 | the first of the largest counters |
| LoadOrder.DependencySort | apps/mwiniimporter/importer.cpp:503-511 | it terminates on every graph; the result is a permutation of the names; each known dependency comes before its file or depends on it in turn; and with unique names the input comes back unchanged exactly when no file lists a later one |
| LoadOrder.DependencySortStep | apps/mwiniimporter/importer.cpp:484-501 | one file is taken out, its dependencies are sorted, and then it is pushed, with the exact effect when none of them is left |
| LoadOrder.TopologicalWhenAcyclic | apps/mwiniimporter/importer.cpp:484-511 | without cycles the result is a topological order |
| LoadOrder.AlreadyOrderedIsInOrder | apps/mwiniimporter/importer.cpp:484-511 | an input whose files list no later file is exactly one that is in dependency order |
| LoadOrder.Find | apps/mwiniimporter/importer.cpp:487-490 | the first exact match, or the end |
| LoadOrder.FindString | apps/mwiniimporter/importer.cpp:513-518 | the first match but for case, or the end |
| LoadOrder.CiEqualMeaning | components/misc/strings/algorithm.hpp:31-37 | two names are equal but for case exactly when they agree letter by letter, where only A to Z have a case |
| LoadOrder.PlaceTribunal | apps/mwiniimporter/importer.cpp:604-619 | inserting the copy and erasing the original moves Tribunal right in front of Bloodmoon, whichever came first, and only when all three files are present |
| LoadOrder.MovedInFront | apps/mwiniimporter/importer.cpp:610-618 | the moved file is right in front of the other and all other files keep their order |
| LoadOrder.MovedIsPermutation | apps/mwiniimporter/importer.cpp:610-618 | the move is a permutation |
| LoadOrder.MoveKeepsOrder | apps/mwiniimporter/importer.cpp:610-618 | an ordered list stays ordered exactly when no file that is jumped over is a dependency or a dependent of the moved one |
| LoadOrder.RelocationCanBreakOrder | apps/mwiniimporter/importer.cpp:604-619 | a plugin between the two that depends on Tribunal ends up before it: a concrete list |
| LoadOrder.ContentOrder | apps/mwiniimporter/importer.cpp:602-622 | the two steps together, with the exact condition under which the final list is in dependency order |
| CollisionOwnership.CollisionCellOwnership.Update | apps/openmw-server/CollisionCellOwnership.cpp:29-61 | acquire and release are the ordered, duplicate-free set differences, the owner holds the wanted cells or is dropped, and an empty owner name throws without a change |
| CollisionOwnership.CollisionCellOwnership.Remove | apps/openmw-server/CollisionCellOwnership.cpp:63-74 | everything held is released in order and the owner is dropped |
| CollisionOwnership.CollisionCellOwnership.Cells | apps/openmw-server/CollisionCellOwnership.cpp:76-84 | what the owner holds, in order |
| CollisionOwnership.TransitionKeepsAgreement | apps/openmw-server/Server.cpp:2406-2453 | applying a transition keeps every count equal to the number of owners, and no release is rejected |
| CollisionOwnership.CountsFollowOwners | apps/openmw-server/Server.cpp:2406-2453 | after any run of updates and removals each count is the number of owners that hold the cell |
| CollisionOwnership.NoGapWhileApplying | apps/openmw-server/Server.cpp:2422-2453 | while acquires are applied no count is below where it started, and while releases are applied none is below where it ends |
| CollisionOwnership.ServerCollisionLifecycle.Acquire | apps/openmw-server/ServerCollisionLifecycle.hpp:32-46 | the count goes up, and loads exactly from zero |
| CollisionOwnership.ServerCollisionLifecycle.Release | apps/openmw-server/ServerCollisionLifecycle.hpp:48-62 | the count goes down and unloads exactly at one; at zero nothing is accepted or changed |
| CollisionOwnership.ServerCollisionLifecycle.Apply | apps/openmw-server/Server.cpp:2406-2453 | all acquires, then all releases, or only the acquires before the failing one |
| CollisionOwnership.UpdateCollisionInterest | apps/openmw-server/Server.cpp:2455-2492 | without a failure owner and counts move together; with one the owner is put back and the acquires are released |
| CollisionOwnership.RollbackRestoresCounts | apps/openmw-server/Server.cpp:2470-2492 | after a load failure the rollback restores the counts exactly when no cell from the failed one on is held by another owner; after a bad name it always does |
| CollisionOwnership.RollbackDropsAHeldCell | apps/openmw-server/Server.cpp:2470-2492 | such a failure: two owners, and a shared cell whose count the rollback takes away from the one that holds it |
| CollisionCells.CollisionCellsForPlayer | apps/openmw-server/CollisionCellOwnership.cpp:86-134 | the ordered names of exactly the cells within the scan that meet the circle; this is every cell that meets it exactly when the radius is below two cells or the position is off the border of its cell; an unusable radius or position gives the own cell |
| CollisionCells.ScanReachesEverything | apps/openmw-server/CollisionCellOwnership.cpp:108-115 | how far the scan has to reach, in both directions, and that it always looks two cells far |
| CollisionCells.NearIsMeets | apps/openmw-server/CollisionCellOwnership.cpp:120-125 | the distance test finds exactly the cells of which some point lies within the circle |
| CollisionCells.ExteriorCellKeyInjective | apps/openmw-server/CollisionCellOwnership.cpp:14-17 | different grid cells, negative ones included, have different names |
| CollisionCells.ExteriorCellKeyMeaning | apps/openmw-server/CollisionCellOwnership.cpp:14-17 | the name is EXT: and the two coordinates in decimal, x first |
| CollisionCells.Scan | apps/openmw-server/CollisionCellOwnership.cpp:112-127 | the loops list the own cell and every other cell of the scan that passes the test, at most 25 in all |
| AlchemyInventory.AttemptsConserve | apps/openmw-server/AlchemyService.cpp:498-528 | for every kind of item: each attempt takes one for each chosen stack of the kind, each success adds one, whatever merges with whatever |
| AlchemyInventory.AttemptsLowerChosen | apps/openmw-server/AlchemyService.cpp:500-510 | each chosen stack is lower by exactly the number of attempts, and gone exactly at zero |
| AlchemyInventory.AttemptsLeaveOthers | apps/openmw-server/AlchemyService.cpp:498-528 | every other stack stays as it was, in its place |
| AlchemyInventory.AttemptsAtOnce | apps/openmw-server/AlchemyService.cpp:666-673 | the interleaved attempts equal consuming everything first and granting afterwards |
| AlchemyRecords.Resolver.Resolve | apps/openmw-server/AlchemyService.cpp:624-663 | the maps and lists are updated to exactly the resolution of the potion, or nothing when no id can be allocated |
| AlchemyRecords.ResolutionIsSound | apps/openmw-server/AlchemyService.cpp:624-663 | equivalent potions of one request keep sharing a record, new entries keep distinct fingerprints and the allocated ids, and an entry is added exactly for an attempt that needs it |
| AlchemyRecords.Resolver.FindNativeEquivalent | apps/openmw-server/AlchemyService.cpp:538-562 | request-local potions first, then the existing ones in order of their ids |
| AlchemyRecords.ReuseIgnoresListingOrder | apps/openmw-server/AlchemyService.cpp:532-562 | the reused id does not depend on the order in which existing potions are listed, nor on how the sort arranges ties |
| AlchemyRecords.ResolutionIgnoresListingOrder | apps/openmw-server/AlchemyService.cpp:532-663 | an attempt gets the same record, and leaves the same local state, however the existing potions were listed |
| AlchemyRecords.FirstMatchIsLeast | apps/openmw-server/AlchemyService.cpp:535-555 | the reused id is the least one with an equivalent definition |
| AlchemyRules.Validate | apps/openmw-server/AlchemyService.cpp:234-482 | the error of the first failing check; none exactly for a valid request |
| AlchemyRules.CheckIngredients | apps/openmw-server/AlchemyService.cpp:309-344 | the error of the first ingredient that has one |
| AlchemyRules.IngredientsSound | apps/openmw-server/AlchemyService.cpp:309-344 | there is none exactly when every ingredient is an owned ingredient record |
| AlchemyRules.CheckApparatus | apps/openmw-server/AlchemyService.cpp:346-398 | the error of the first apparatus that has one, or of the missing mortar |
| AlchemyRules.ApparatusSound | apps/openmw-server/AlchemyService.cpp:346-398 | there is none exactly when every apparatus is owned, no type occurs twice and there is a mortar |
| AlchemyRules.NoErrorIsValid | apps/openmw-server/AlchemyService.cpp:234-482 | all checks pass exactly for a valid request, said without their order |
| AlchemyRules.HasDuplicate | apps/openmw-server/AlchemyService.cpp:258-281 | whether an instance occurs twice anywhere in the request |
| AlchemyRules.ValidRequestIsStocked | apps/openmw-server/AlchemyService.cpp:471-482 | a valid request has distinct ingredients with enough in each stack for all attempts |
| AlchemyRules.UseSkill | apps/openmw-server/AlchemyService.cpp:696-715 | each use raises the skill at most once, level progress grows by the multiplier per raise, the skill never passes the cap by a whole point, and progress stays below one |
| AlchemyRules.UseMeaning | apps/openmw-server/AlchemyService.cpp:128-172 | one use below the cap: the gain is what the use is worth over the next level times the bonus of the class and of the specialization; a full point raises the skill by one, starts the progress anew and counts towards the level |
| AlchemyRules.UseThrows | apps/openmw-server/AlchemyService.cpp:128-172 | a use throws exactly when the skill record is missing, or below the cap one of the settings |
| AlchemyService.Brew | apps/openmw-server/AlchemyService.cpp:587-680 | exactly the batch, or the error, that the rolls, the allowed content, the record resolution and the quota determine |
| AlchemyService.BrewingMeans | apps/openmw-server/AlchemyService.cpp:587-680 | a brewed batch follows the rolls, gives equivalent potions one record, adds exactly the new records that attempts needed and no more than allowed, and leaves the inventory the attempts leave |
| AlchemyService.BrewAttempts | apps/openmw-server/AlchemyService.cpp:600-673 | the loop reaches the state after the last attempt, or stops with the error of the first one that fails |
| AlchemyService.Batch.ConsumeOneOf | apps/openmw-server/AlchemyService.cpp:500-510 | the first stack with the identity loses one and is erased when it runs out |
| AlchemyService.Batch.GrantPotion | apps/openmw-server/AlchemyService.cpp:516-528 | the first equal stack gains one, or a new stack is appended |
| AlchemyService.BrewingConserves | apps/openmw-server/AlchemyService.cpp:587-673 | conservation for a valid request: the attempt count of each chosen ingredient less, one potion more per success |
| AlchemyService.BrewingLowersChosen | apps/openmw-server/AlchemyService.cpp:587-673 | stack by stack, for unique identities and potions of other kinds than the ingredients |
| AlchemyService.AlchemyService.Execute | apps/openmw-server/AlchemyService.cpp:197-773 | a committed outcome is one commit of the whole batch, which leaves the inventory and the statistics it reports and moves the inventory revision of the character on by one, from the one the request was prepared on to the one that the outcome and its result report; a journaled request is answered from its row without a write; any other ending is what the row now under the key prescribes, the error of the request, or what the store that the commit met did to it; nothing is written but the proposed commit and the rejection that is answered, so a replayed answer has written no row, and every answer leaves one; undisturbed, exactly what is decided happens, whatever the depth of the stack; without a NUL in the id the call enters itself at most once |
| AlchemyService.AlchemyService.Carry | apps/openmw-server/AlchemyService.cpp:745-773 | the same for the commit of a proposal |
| AlchemyService.ReadyCommits | apps/openmw-server/AlchemyService.cpp:683-773 | undisturbed, exactly a proposal of the owner at the stored inventory revision, with no row under the id as it is filed, commits |
| AlchemyService.EndlessExactly | apps/openmw-server/AlchemyService.cpp:745-757 | undisturbed, a call without a row enters itself without end exactly when it proposes and a row stands under the id cut at its NUL |
| AlchemyService.EndlessExample | apps/openmw-server/AlchemyService.cpp:745-757 | a store and a request, with the id 1 0 1, for which this happens |
| AlchemyService.CallsAreHonest | apps/openmw-server/AlchemyService.cpp:207-773 | every write of a call is a commit with the bytes of an accepted result or a rejection with those of a rejected one |
| AlchemyService.AcceptedRowIsCommitted | apps/openmw-server/PlayerDatabase.cpp:5071-5158 | in a run whose writes under a key are all of that kind, a row that reads as accepted was put there by exactly one commit with these bytes |
| AlchemyService.AcceptedAnswerIsCommitted | apps/openmw-server/AlchemyService.cpp:207-773 | an answer that says accepted, the first or a replayed one, belongs to exactly one commit of the run, which holds its bytes |
| AlchemyService.BrewingIgnoresListingOrder | apps/openmw-server/AlchemyService.cpp:532-680 | two contexts that list the existing potions in different orders brew the same batch, records and inventory included |
| AlchemyService.AlchemyService.Propose | apps/openmw-server/AlchemyService.cpp:234-744 | validation, attempts and skill uses in order: the first error, or the commit and the outcome |
| AlchemyService.ProposedMeans | apps/openmw-server/AlchemyService.cpp:683-744 | what is proposed stands for a valid request, and outcome and commit agree on inventory, records, key, statistics and stored bytes; it expects the inventory revision the request was prepared on and leaves the next one, zero after the largest |
| AlchemyService.ProposedStats | apps/openmw-server/AlchemyService.cpp:683-716 | the statistics of a proposal are those after one skill use for each attempt that succeeded, and are saved exactly when they differ |
| AlchemyService.ProposedExactly | apps/openmw-server/AlchemyService.cpp:234-716 | a request is proposed exactly when it is valid and its attempts and skill uses go through; otherwise it is refused with the first error |
| AlchemyService.OneBatchPerRevision | apps/openmw-server/AlchemyService.cpp:718-771 | of two batches prepared on one inventory revision at most one commits, under whatever keys, as long as no write between them sets the revision back |
| AlchemyService.ExecuteOnOldInventory | apps/openmw-server/AlchemyService.cpp:718-771 | undisturbed, a second request prepared on the inventory that a committed one has used does not commit |
| AlchemyService.AlchemyService.FromJournal | apps/openmw-server/AlchemyService.cpp:207-232 | conflict, pending, the stored bytes, or an exception for a corrupt row |
| AlchemyService.AlchemyService.Reject | apps/openmw-server/AlchemyService.cpp:283-292 | a rejection touches nothing but the journal |
| AlchemyService.ExecuteAgain | apps/openmw-server/AlchemyService.cpp:207-232 | a request that is sent again, whatever happened in between: what was committed under an id without a NUL, and a rejection that stands, come back with their original bytes; what was committed under an id with a NUL is never replayed |
| AlchemyService.MirrorIsRight | apps/openmw-server/Server.cpp:9548-9569 | with a skill use that is worth something, the mirrored inventory after a commit is the committed one exactly when there was no success or the skill was at 100; otherwise it is the one from before the request |
| AlchemyService.MirrorIsStale | apps/openmw-server/Server.cpp:9548-9569 | in general it is the committed one exactly when the skill uses left the statistics as they were |
| AlchemyService.StaleMirrorExample | apps/openmw-server/Server.cpp:9548-9569 | a concrete request for which this happens |
| AlchemyService.ProposalChangesInventory | apps/openmw-server/AlchemyService.cpp:500-680 | every proposal takes something: its inventory is not the one it started from |
| CraftStore.RunIsLater | apps/openmw-server/PlayerDatabase.cpp:5131-5218 | rows stay, keep their hash, and never change again once they are final, whatever else is written |
| CraftStore.CommitsOnce | apps/openmw-server/PlayerDatabase.cpp:5775-6085 | in every interleaving at most one commit is filed under a key |
| CraftStore.AllOrNothing | apps/openmw-server/PlayerDatabase.cpp:5775-6085 | a commit that is not carried out changes nothing; one that is met no row under its id as it is filed and the expected revision, and wrote inventory, revision, statistics and journal row together |
| CraftStore.CommitsExactly | apps/openmw-server/PlayerDatabase.cpp:5775-6085 | exactly which commits are carried out: complete, under a free key, for a character of the account at the expected inventory revision; all their records are there afterwards |
| CraftStore.OneAdvancePerRevision | apps/openmw-server/PlayerDatabase.cpp:5775-6085 | of the commits that expect one revision and move it on at most one is carried out as long as nothing sets the revision back; coming round to it again takes 2^64 writes |
| CraftStore.FoundAgain | apps/openmw-server/PlayerDatabase.cpp:5775-5815 | a commit is found again by a lookup of its own id exactly when the id holds no NUL |
| CraftStore.CraftDatabase.Write | apps/openmw-server/PlayerDatabase.cpp:5775-6085 | one write on the store it meets, after whatever other connections did |
| ConfiguredCell.NormalizeConfiguredCell | apps/openmw-server/ConfiguredCell.hpp:11-57 | a grid cell loses exactly its spaces, every other name comes back as it was |
| ConfiguredCell.NormalizedStays | apps/openmw-server/ConfiguredCell.hpp:11-57 | normalizing twice is normalizing once |

## Left out

- Strings of 2^32 bytes or more, which the Writer refuses with an exception: texts in the crime model are shorter by type.
- IEEE-754 rounding, infinities and NaN in arithmetic: inside the codec a float is its bit pattern with a finiteness test; bounties, skill progress, aggression and geometry use real numbers.
- Division by a zero skill requirement, which yields an infinity in the original: the skill bonuses are taken to be positive and the base skill not negative.
- ObservationService, the addition of the observation height, the comparison with the alarm radius and the aggression formula inside `evaluate`: arbitrary function parameters of the policy. The aggression formula is modelled on its own in exact arithmetic, and not connected to the bit patterns.
- SHA-256 and the UTF-8 test: function parameters; that the hash tells two requests apart is assumed only where a member says so, and only for those two.
- The cut of other text columns than request ids at a NUL (sources, hashes, record ids): they are stored whole here. Hashes are hexadecimal, no service compares sources, and record ids come from the allocator.
- The row of the combat event in the transaction of `acceptCombatEvent`, and its own check for replays: only the crime commits of that transaction.
- The creation and deletion of characters, and other services that write crime states inside their own transactions: a run of the ledger consists of the writes of the two crime services.
- The argument exceptions of `insertRejectedSemanticRequest`; sqlite errors other than an injected failure.
- A `startingState` that is not a valid crime state: `evaluate` takes it unchecked and the model requires it to be valid.
- Condition-variable wakeups, fairness and real time in the admin queue: a timeout may happen at any moment, and only safety is proved.
- Range of 32-bit coordinates, item counts and reference counts: tile and cell coordinates and counts are unbounded here.
- The world space, cell and reference details in the log lines of the tile-group report: only which references are reported.
- Reading and time-sorting the content files, and the configuration map, around the dependency sort.
- The generation numbers of the collision lifecycle, and loading of geometry: only the reference counts.
- The alchemy mechanics (ready status, rolls, potion values) and the random generator: outcomes are parameters, one for each attempt.
- The wire codec of alchemy results and requests: encoding and decoding are parameters; `ExecuteAgain` and the theorems about whole runs assume that they round-trip.
- The size of the call stack: a parameter of `AlchemyService.Execute`.
- Fixed record ids in the alchemy context, the fields of a record other than id, fingerprint and potion, and dependency links between records.
- `reconcileInventory`, which assigns instance identities before the commit: an arbitrary function of the inventory; conservation is about the inventory it is given.
- Merchant gold, relationships, containers and spellbooks in `commitDynamicRecordRequest`, and its server-request form: alchemy does not use them.
- The reference ids, provenances and generations that witness-builder decisions repeat for diagnostics: a decision is an identity and a reason. The candidate cells are a parameter of the builder, so its contract does not depend on the geometry.
- HTTP server, launcher, editor, tools over ESM, BSA and NIF files, navmesh building, `ObservationService`, enchanting, spellmaking, persuasion: they would need libraries that are not modelled, or add members of the kind already here.
- AlchemyService.BrewingLowersChosen: assumes unique non-zero identities and that no potion is of the kind of a chosen ingredient; without that assumption only the totals of `AlchemyService.BrewingConserves` are stated.
