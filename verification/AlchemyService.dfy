/** AlchemyService::execute: brew, then commit everything or nothing, and answer a retry from the journal. */
module AlchemyService {
  import opened Wrappers
  import opened ByteBuffers
  import opened Sorting
  import opened AlchemyInventory
  import opened CraftStore
  import opened AlchemyRules
  import AlchemyRecords

  datatype Attempt = Attempt(success: bool, recordId: Bytes, reused: bool)

  datatype Result = Result(
    requestId: Bytes, accepted: bool, error: Error, inventoryRevision: u64, commitSequence: u64, attempts: seq<Attempt>)

  datatype Outcome = Outcome(
    result: Result, encoded: Bytes, newRecords: seq<AlchemyRecords.NewRecord>, replayed: bool, committed: bool,
    inventory: seq<Item>, revision: u64, stats: Option<Stats>)

  /** How a call of execute ends: it returns an outcome, or None for an escaping exception; or the stack is used up. */
  datatype Ending = Returned(outcome: Option<Outcome>) | StackOverflow {
    predicate Answers() { Returned? && outcome.Some? }

    predicate Commits() { Answers() && outcome.value.committed }
  }

  function MakeError(requestId: Bytes, error: Error, revision: u64): Result {
    Result(requestId, false, error, revision, 0, [])
  }

  /** The record that an attempt grants, if any. */
  function Granted(a: Attempt): Option<Bytes> { if a.success then Some(a.recordId) else None }

  function Outcomes(attempts: seq<Attempt>): seq<Option<Bytes>> {
    seq(|attempts|, i requires 0 <= i < |attempts| => Granted(attempts[i]))
  }

  // ----- the attempts -------------------------------------------------------------------------------------

  datatype Brewed = BrewFailed(error: Error)
                  | Brewed(attempts: seq<Attempt>, inventory: seq<Item>, records: seq<AlchemyRecords.NewRecord>)

  /** The attempts so far, or the error that abandoned the batch. */
  datatype Progress = Stopped(error: Error) | Going(attempts: seq<Attempt>, local: AlchemyRecords.Local)

  /** The first `k` attempts. */
  function After(ctx: Context, k: nat): Progress {
    if k == 0 then Going([], AlchemyRecords.NOTHING_YET)
    else
      var before := After(ctx, k - 1);
      if before.Stopped? then before
      else
        match ctx.roll(k - 1)
        case RollThrows => Stopped(MechanicsValidationFailed)
        case Failure => Going(before.attempts + [Attempt(false, [], false)], before.local)
        case Success(potion) =>
          if !ctx.content.potionAllowed(potion) then Stopped(ContentMismatch)
          else
            match AlchemyRecords.Resolution(ctx.world, before.local, potion)
            case None => Stopped(MechanicsValidationFailed)
            case Some((local, resolved)) => Going(before.attempts + [Attempt(true, resolved.recordId, resolved.reused)], local)
  }

  function BrewedWith(q: Request, ctx: Context, attempts: seq<Attempt>, records: seq<AlchemyRecords.NewRecord>): Brewed {
    Brewed(attempts, Attempts(ctx.inventory, q.ingredients, Outcomes(attempts)), records)
  }

  /** The outcome of the attempts: an error, or the attempts with the inventory they leave. */
  function Brewing(q: Request, ctx: Context): Brewed {
    if ctx.ready.NoEffects? then BrewedWith(q, ctx, [Attempt(false, [], false)], [])
    else
      match After(ctx, q.count)
      case Stopped(error) => BrewFailed(error)
      case Going(attempts, local) =>
        if |local.entries| > ctx.maximumNewRecords then BrewFailed(QuotaExceeded) else BrewedWith(q, ctx, attempts, local.entries)
  }

  predicate FollowsRolls(ctx: Context, attempts: seq<Attempt>) {
    forall i :: 0 <= i < |attempts| ==>
                  && !ctx.roll(i).RollThrows?
                  && (attempts[i].success <==> ctx.roll(i).Success?)
                  && (attempts[i].success ==> ctx.content.potionAllowed(ctx.roll(i).potion))
                  && (!attempts[i].success ==> attempts[i] == Attempt(false, [], false))
  }

  /** Equivalent potions of one request have the same record. */
  ghost predicate OneRecordEach(ctx: Context, attempts: seq<Attempt>) {
    forall i, j :: 0 <= i < |attempts| && 0 <= j < |attempts| && attempts[i].success && attempts[j].success
                   && ctx.roll(i).Success? && ctx.roll(j).Success?
                   && AlchemyRecords.NativeEquivalent(ctx.roll(i).potion, ctx.roll(j).potion)
                   ==> attempts[i].recordId == attempts[j].recordId
  }

  lemma {:induction false} GrantAt(items: seq<Item>, recordId: Bytes, i: nat)
    requires i <= |items| && forall j :: 0 <= j < i ==> !SameStack(items[j], Potion(recordId))
    requires i < |items| ==> SameStack(items[i], Potion(recordId))
    ensures Grant(items, recordId)
            == if i == |items| then items + [Potion(recordId)] else items[i := items[i].(count := items[i].count + 1)]
  {
    hide SameStack;
    if i > 0 { GrantAt(items[1..], recordId, i - 1); }
  }

  lemma {:induction false} ConsumeAt(items: seq<Item>, id: u32, i: nat)
    requires i <= |items| && forall j :: 0 <= j < i ==> items[j].instanceId != id
    requires i < |items| ==> items[i].instanceId == id
    ensures Consume(items, id, 1)
            == if i == |items| then items
               else if items[i].count - 1 <= 0 then items[..i] + items[i + 1..]
               else items[..i] + [items[i].(count := items[i].count - 1)] + items[i + 1..]
  {
    if i > 0 { ConsumeAt(items[1..], id, i - 1); }
  }

  /** The local state of execute while the attempts run. */
  class Batch {
    const resolver: AlchemyRecords.Resolver
    var nextInventory: seq<Item>

    constructor (world: AlchemyRecords.World, inventory: seq<Item>)
      ensures resolver.Valid() && resolver.world == world && resolver.State() == AlchemyRecords.NOTHING_YET
      ensures fresh(resolver) && nextInventory == inventory
    {
      resolver := new AlchemyRecords.Resolver(world);
      nextInventory := inventory;
    }

    method ConsumeOneOf(id: u32)
      modifies this`nextInventory
      ensures nextInventory == Consume(old(nextInventory), id, 1)
    {
      for i := 0 to |nextInventory|
        invariant nextInventory == old(nextInventory)
        invariant forall j :: 0 <= j < i ==> nextInventory[j].instanceId != id
      {
        if nextInventory[i].instanceId == id {
          ConsumeAt(nextInventory, id, i);
          var left := nextInventory[i].(count := nextInventory[i].count - 1);
          nextInventory := if left.count <= 0 then nextInventory[..i] + nextInventory[i + 1..]
                           else nextInventory[..i] + [left] + nextInventory[i + 1..];
          return;
        }
      }
      ConsumeAt(nextInventory, id, |nextInventory|);
    }

    method ConsumeOneOfEach(ids: seq<u32>)
      modifies this`nextInventory
      ensures nextInventory == ConsumeEach(old(nextInventory), ids, 1)
    {
      for i := 0 to |ids|
        invariant ConsumeEach(old(nextInventory), ids, 1) == ConsumeEach(nextInventory, ids[i..], 1)
      {
        ConsumeOneOf(ids[i]);
      }
    }

    method GrantPotion(recordId: Bytes)
      modifies this`nextInventory
      ensures nextInventory == Grant(old(nextInventory), recordId)
    {
      hide SameStack;
      var potion := Potion(recordId);
      for i := 0 to |nextInventory|
        invariant nextInventory == old(nextInventory)
        invariant forall j :: 0 <= j < i ==> !SameStack(nextInventory[j], potion)
      {
        if SameStack(nextInventory[i], potion) {
          GrantAt(nextInventory, recordId, i);
          nextInventory := nextInventory[i := nextInventory[i].(count := nextInventory[i].count + 1)];
          return;
        }
      }
      GrantAt(nextInventory, recordId, |nextInventory|);
      nextInventory := nextInventory + [potion];
    }
  }

  lemma OneMoreAttempt(items: seq<Item>, ids: seq<u32>, attempts: seq<Attempt>, a: Attempt)
    ensures var used := ConsumeEach(Attempts(items, ids, Outcomes(attempts)), ids, 1);
            Attempts(items, ids, Outcomes(attempts + [a])) == if a.success then Grant(used, a.recordId) else used
  {
    hide ConsumeEach, Grant;
    assert Outcomes(attempts + [a]) == Outcomes(attempts) + [Granted(a)];
    assert Outcomes(attempts + [a])[..|attempts|] == Outcomes(attempts);
  }

  /** Potions that went through the same resolver share a record when they are equivalent. */
  lemma SameRecord(local: seq<(Bytes, AlchemyRecords.Potion)>, a: (Bytes, AlchemyRecords.Potion), b: (Bytes, AlchemyRecords.Potion))
    requires AlchemyRecords.OneIdEach(local) && a in local && b in local && AlchemyRecords.NativeEquivalent(a.1, b.1)
    ensures a.0 == b.0
  {
    var i :| 0 <= i < |local| && local[i] == a;
    var j :| 0 <= j < |local| && local[j] == b;
    assert AlchemyRecords.NativeEquivalent(local[j].1, local[i].1);
  }

  ghost predicate Resolved(ctx: Context, attempts: seq<Attempt>, local: seq<(Bytes, AlchemyRecords.Potion)>) {
    forall i :: 0 <= i < |attempts| && attempts[i].success && ctx.roll(i).Success? ==>
                  (attempts[i].recordId, ctx.roll(i).potion) in local
  }

  lemma ResolvedMeansOneRecordEach(ctx: Context, attempts: seq<Attempt>, local: seq<(Bytes, AlchemyRecords.Potion)>)
    requires Resolved(ctx, attempts, local) && AlchemyRecords.OneIdEach(local)
    ensures OneRecordEach(ctx, attempts)
  {
    hide AlchemyRecords.NativeEquivalent, AlchemyRecords.OneIdEach;
    forall i, j | 0 <= i < |attempts| && 0 <= j < |attempts| && attempts[i].success && attempts[j].success
                  && ctx.roll(i).Success? && ctx.roll(j).Success?
                  && AlchemyRecords.NativeEquivalent(ctx.roll(i).potion, ctx.roll(j).potion)
      ensures attempts[i].recordId == attempts[j].recordId
    {
      SameRecord(local, (attempts[i].recordId, ctx.roll(i).potion), (attempts[j].recordId, ctx.roll(j).potion));
    }
  }

  /** A new record is used by an attempt that reuses nothing, and such an attempt brewed its definition. */
  ghost predicate RecordsMatch(ctx: Context, attempts: seq<Attempt>, records: seq<AlchemyRecords.NewRecord>) {
    && (forall i :: 0 <= i < |records| ==> UsedBy(ctx, attempts, records[i]))
    && forall j :: 0 <= j < |attempts| && attempts[j].success && !attempts[j].reused ==> HasRecord(ctx, attempts, j, records)
  }

  ghost predicate UsedBy(ctx: Context, attempts: seq<Attempt>, record: AlchemyRecords.NewRecord) {
    exists j :: 0 <= j < |attempts| && attempts[j].success && attempts[j].recordId == record.recordId
                && ctx.roll(j) == Success(record.definition)
  }

  ghost predicate HasRecord(ctx: Context, attempts: seq<Attempt>, j: nat, records: seq<AlchemyRecords.NewRecord>)
    requires j < |attempts|
  {
    exists r <- records :: r.recordId == attempts[j].recordId && ctx.roll(j) == Success(r.definition)
  }

  /** What the attempts amount to, whatever the rolls. */
  lemma {:induction false} AfterIsSound(ctx: Context, k: nat)
    requires After(ctx, k).Going?
    ensures var a := After(ctx, k);
            && |a.attempts| == k && FollowsRolls(ctx, a.attempts) && Resolved(ctx, a.attempts, a.local.potions)
            && AlchemyRecords.Sound(ctx.world, a.local) && RecordsMatch(ctx, a.attempts, a.local.entries)
  {
    hide AlchemyRecords.Resolution, AlchemyRecords.Sound, RecordsMatch, FollowsRolls, Resolved;
    if k == 0 {
      NothingYetIsSound(ctx);
    } else {
      AfterIsSound(ctx, k - 1);
      var before, now := After(ctx, k - 1), After(ctx, k);
      assert before.attempts == now.attempts[..k - 1];
      if ctx.roll(k - 1).Success? {
        AlchemyRecords.ResolutionIsSound(ctx.world, before.local, ctx.roll(k - 1).potion);
      }
      StillFollows(ctx, before, now, k - 1);
      StillMatch(ctx, before, now, k - 1);
    }
  }

  lemma NothingYetIsSound(ctx: Context)
    ensures AlchemyRecords.Sound(ctx.world, AlchemyRecords.NOTHING_YET)
    ensures FollowsRolls(ctx, []) && Resolved(ctx, [], []) && RecordsMatch(ctx, [], [])
  {}

  lemma StillFollows(ctx: Context, before: Progress, now: Progress, k: nat)
    requires before.Going? && now.Going? && |before.attempts| == k && |now.attempts| == k + 1
    requires now.attempts[..k] == before.attempts
    requires FollowsRolls(ctx, before.attempts) && Resolved(ctx, before.attempts, before.local.potions)
    requires before.local.potions <= now.local.potions && !ctx.roll(k).RollThrows?
    requires !ctx.roll(k).Success? ==> now.attempts[k] == Attempt(false, [], false)
    requires ctx.roll(k).Success? ==>
               && now.attempts[k].success && ctx.content.potionAllowed(ctx.roll(k).potion)
               && (now.attempts[k].recordId, ctx.roll(k).potion) in now.local.potions
    ensures FollowsRolls(ctx, now.attempts) && Resolved(ctx, now.attempts, now.local.potions)
  {
    forall i | 0 <= i < k && before.attempts[i].success && ctx.roll(i).Success?
      ensures (now.attempts[i].recordId, ctx.roll(i).potion) in now.local.potions
    {
      assert now.attempts[i] == before.attempts[i];
      assert (before.attempts[i].recordId, ctx.roll(i).potion) in before.local.potions;
    }
    forall i | 0 <= i < k
      ensures now.attempts[i] == before.attempts[i]
    {}
  }

  lemma StillMatch(ctx: Context, before: Progress, now: Progress, k: nat)
    requires before.Going? && now.Going? && |before.attempts| == k && |now.attempts| == k + 1
    requires before.attempts == now.attempts[..k] && before.local.entries <= now.local.entries
    requires RecordsMatch(ctx, before.attempts, before.local.entries)
    requires |now.local.entries| <= |before.local.entries| + 1
    requires |now.local.entries| > |before.local.entries| ==>
               && now.attempts[k].success
               && now.local.entries[|before.local.entries|].recordId == now.attempts[k].recordId
               && ctx.roll(k) == Success(now.local.entries[|before.local.entries|].definition)
    requires now.attempts[k].success && !now.attempts[k].reused ==> |now.local.entries| > |before.local.entries|
    ensures RecordsMatch(ctx, now.attempts, now.local.entries)
  {
    var entries := now.local.entries;
    forall i | 0 <= i < |entries|
      ensures UsedBy(ctx, now.attempts, entries[i])
    {
      if i < |before.local.entries| {
        assert UsedBy(ctx, before.attempts, before.local.entries[i]);
        var j :| 0 <= j < k && before.attempts[j].success && before.attempts[j].recordId == entries[i].recordId
                 && ctx.roll(j) == Success(entries[i].definition);
        assert now.attempts[j] == before.attempts[j];
      }
    }
    forall j | 0 <= j < |now.attempts| && now.attempts[j].success && !now.attempts[j].reused
      ensures HasRecord(ctx, now.attempts, j, entries)
    {
      if j < k {
        assert now.attempts[j] == before.attempts[j];
        assert HasRecord(ctx, before.attempts, j, before.local.entries);
      } else {
        assert entries[|before.local.entries|] in entries;
      }
    }
  }

  /** A brewed batch follows the rolls, one attempt after the other; equivalent potions share a record; the
      new records are different ones, no more than allowed, with the allocated ids, and exactly those that
      attempts needed. */
  lemma BrewingMeans(q: Request, ctx: Context)
    requires Brewing(q, ctx).Brewed?
    ensures var b := Brewing(q, ctx);
            && |b.attempts| == AttemptCount(q, ctx)
            && b.inventory == Attempts(ctx.inventory, q.ingredients, Outcomes(b.attempts))
            && (!ctx.ready.NoEffects? ==> FollowsRolls(ctx, b.attempts) && OneRecordEach(ctx, b.attempts)
                                          && RecordsMatch(ctx, b.attempts, b.records))
            && AlchemyRecords.DistinctFingerprints(b.records) && |b.records| <= ctx.maximumNewRecords
            && (forall i :: 0 <= i < |b.records| ==> b.records[i].recordId == ctx.world.allocateId(i))
  {
    if !ctx.ready.NoEffects? {
      AfterIsSound(ctx, q.count);
      var a := After(ctx, q.count);
      ResolvedMeansOneRecordEach(ctx, a.attempts, a.local.potions);
    }
  }

  /** The loop over the attempts. A failure abandons the whole batch. */
  method BrewAttempts(q: Request, ctx: Context, batch: Batch) returns (error: Error, attempts: seq<Attempt>)
    requires batch.resolver.Valid() && batch.resolver.world == ctx.world
    requires batch.resolver.State() == AlchemyRecords.NOTHING_YET && batch.nextInventory == ctx.inventory
    modifies batch, batch.resolver
    ensures error != NoError ==> After(ctx, q.count) == Stopped(error)
    ensures error == NoError ==>
              && After(ctx, q.count) == Going(attempts, batch.resolver.State())
              && batch.nextInventory == Attempts(ctx.inventory, q.ingredients, Outcomes(attempts))
  {
    hide AlchemyRecords.Resolution, ConsumeEach, Grant;
    attempts := [];
    for i := 0 to q.count
      invariant batch.resolver.Valid()
      invariant After(ctx, i) == Going(attempts, batch.resolver.State())
      invariant batch.nextInventory == Attempts(ctx.inventory, q.ingredients, Outcomes(attempts))
    {
      var roll := ctx.roll(i);
      var attempt := Attempt(false, [], false);
      match roll {
        case RollThrows =>
          StoppedForGood(ctx, i + 1, q.count);
          return MechanicsValidationFailed, attempts;
        case Failure =>
        case Success(potion) =>
          if !ctx.content.potionAllowed(potion) {
            StoppedForGood(ctx, i + 1, q.count);
            return ContentMismatch, attempts;
          }
          var resolved := batch.resolver.Resolve(potion);
          if resolved.None? {
            StoppedForGood(ctx, i + 1, q.count);
            return MechanicsValidationFailed, attempts;
          }
          attempt := Attempt(true, resolved.value.recordId, resolved.value.reused);
      }
      OneMoreAttempt(ctx.inventory, q.ingredients, attempts, attempt);
      attempts := attempts + [attempt];
      batch.ConsumeOneOfEach(q.ingredients);
      if attempt.success { batch.GrantPotion(attempt.recordId); }
    }
    return NoError, attempts;
  }

  lemma {:induction false} StoppedForGood(ctx: Context, m: nat, n: nat)
    requires m <= n && After(ctx, m).Stopped?
    ensures After(ctx, n) == After(ctx, m)
  {
    if m < n { StoppedForGood(ctx, m, n - 1); }
  }

  method Brew(q: Request, ctx: Context) returns (b: Brewed)
    ensures b == Brewing(q, ctx)
  {
    hide After, ConsumeEach;
    var batch := new Batch(ctx.world, ctx.inventory);
    var attempts;
    if ctx.ready.NoEffects? {
      attempts := [Attempt(false, [], false)];
      OneMoreAttempt(ctx.inventory, q.ingredients, [], attempts[0]);
      assert [] + [attempts[0]] == attempts && Outcomes([]) == [];
      batch.ConsumeOneOfEach(q.ingredients);
    } else {
      var error;
      error, attempts := BrewAttempts(q, ctx, batch);
      if error != NoError { return BrewFailed(error); }
    }
    if |batch.resolver.commitEntries| > ctx.maximumNewRecords { return BrewFailed(QuotaExceeded); }
    return Brewed(attempts, batch.nextInventory, batch.resolver.commitEntries);
  }

  // ----- the operation ------------------------------------------------------------------------------------

  function KeyOf(q: Request, ctx: Context): Key { Key(ctx.account, ctx.character, q.requestId) }

  function NextRevision(r: u64): u64 { if r == 0xffff_ffff_ffff_ffff then 0 else r + 1 }

  function Successes(attempts: seq<Attempt>): nat {
    if attempts == [] then 0
    else Successes(attempts[..|attempts| - 1]) + if attempts[|attempts| - 1].success then 1 else 0
  }

  /** The statistics to save: those after one skill use per success, if anything about them changed. */
  function ResultingStats(ctx: Context, attempts: seq<Attempt>): Option<Stats>
    requires ValidRules(ctx.rules) && ctx.stats.base >= 0.0
  {
    var after := SkillAfter(ctx.rules, ctx.stats, Successes(attempts));
    if after == Some(ctx.stats) then None else after
  }

  function Answer(result: Result, encoded: Bytes, replayed: bool): Outcome {
    Outcome(result, encoded, [], replayed, false, [], 0, None)
  }

  datatype Proposal = Refused(error: Error) | Proposed(commit: Commit, outcome: Outcome)

  /** Everything up to the commit: the first error, or what one accepted request is to write, together with
      the outcome that says so. */
  function Decide(q: Request, hash: Bytes, ctx: Context, encode: Result -> Bytes): Proposal
    requires ValidRules(ctx.rules) && ctx.stats.base >= 0.0
  {
    if ValidationError(q, hash, ctx) != NoError then Refused(ValidationError(q, hash, ctx))
    else
      match Brewing(q, ctx)
      case BrewFailed(error) => Refused(error)
      case Brewed(attempts, inventory, records) =>
        if SkillAfter(ctx.rules, ctx.stats, Successes(attempts)).None? then Refused(MechanicsValidationFailed)
        else
          var revision := NextRevision(ctx.inventoryRevision);
          var result := Result(q.requestId, true, NoError, revision, ctx.commitSequence, attempts);
          var outcome := Outcome(result, encode(result), records, false, true, ctx.reconcile(inventory), revision,
                                 ResultingStats(ctx, attempts));
          Proposed(Commit(KeyOf(q, ctx), hash, outcome.encoded, ctx.inventoryRevision, revision, records,
                          outcome.inventory, outcome.stats), outcome)
  }

  /** The attempts that succeeded. */
  ghost function Succeeding(attempts: seq<Attempt>): set<nat> { set i: nat | i < |attempts| && attempts[i].success }

  lemma {:induction false} SuccessesCount(attempts: seq<Attempt>)
    ensures Successes(attempts) == |Succeeding(attempts)|
  {
    if attempts != [] {
      var most := attempts[..|attempts| - 1];
      SuccessesCount(most);
      assert Succeeding(attempts) == Succeeding(most) + if attempts[|most|].success then {|most|} else {};
    }
  }

  /** `db` is `before` with the outcome's inventory and statistics for the character, at the revision that follows the one
    the request was prepared on; the outcome and its result report that revision. */
  ghost predicate Advances(before: Db, db: Db, ctx: Context, o: Outcome) {
    && ctx.character in before.characters && before.characters[ctx.character].account == ctx.account
    && before.characters[ctx.character].revision == ctx.inventoryRevision
    && o.revision == o.result.inventoryRevision == (ctx.inventoryRevision + 1) % 0x1_0000_0000_0000_0000
    && db.characters == before.characters[ctx.character :=
         Character(ctx.account, o.revision, o.inventory,
                   if o.stats.Some? then o.stats.value else before.characters[ctx.character].stats)]
  }

  ghost predicate CommittedBrew(q: Request, hash: Bytes, ctx: Context, encode: Result -> Bytes, before: Db, c: Commit, o: Outcome)
    requires ValidRules(ctx.rules) && ctx.stats.base >= 0.0
  {
    Decide(q, hash, ctx, encode) == Proposed(c, o) && Commits(before, CommitWork(c))
    && Advances(before, Apply(before, CommitWork(c)), ctx, o)
  }

  function ErrorAnswer(q: Request, error: Error, revision: u64, encode: Result -> Bytes): Outcome {
    Answer(MakeError(q.requestId, error, revision), encode(MakeError(q.requestId, error, revision)), false)
  }

  /** What the journal prescribes for a key that has a row with a final answer, or another request's. */
  ghost predicate AnsweredFrom(e: Entry, q: Request, hash: Bytes, ctx: Context, encode: Result -> Bytes,
                               decode: Bytes -> Option<Result>, r: Option<Outcome>) {
    if e.hash != hash then
      r == Some(ErrorAnswer(q, Error.DuplicateRequestConflict, ctx.inventoryRevision, encode))
    else if e.progress == Pending then
      r == Some(ErrorAnswer(q, RequestPending, ctx.inventoryRevision, encode))
    else if decode(e.payload).None? then r == None
    else r == Some(Answer(decode(e.payload).value, e.payload, true))
  }

  /** The row under the key prescribes this answer, or the exception. */
  ghost predicate RowAnswers(db: Db, q: Request, hash: Bytes, ctx: Context, encode: Result -> Bytes,
                             decode: Bytes -> Option<Result>, r: Option<Outcome>) {
    KeyOf(q, ctx) in db.journal && AnsweredFrom(db.journal[KeyOf(q, ctx)], q, hash, ctx, encode, decode, r)
  }

  /** The answer to a stale inventory revision on a store that is met afterwards: the revision found there, or an
      exception when the character is gone. */
  function StaleAnswer(db: Db, q: Request, ctx: Context, encode: Result -> Bytes): Option<Outcome> {
    match RevisionOf(db, ctx.character)
    case None => None
    case Some(revision) => Some(ErrorAnswer(q, Error.StaleInventoryRevision, revision, encode))
  }

  /** Why a call did not commit, given the stores `met` that its statements have met, of which `db` is the last:
      the row under the key says so; the request is refused; the commit met a store with another inventory revision,
      and the answer carries the revision found afterwards; the store made the commit throw; or a row stands where
      the commit would be filed, and the call keeps entering itself. */
  ghost predicate Explained(met: seq<Db>, db: Db, q: Request, hash: Bytes, ctx: Context, encode: Result -> Bytes,
                            decode: Bytes -> Option<Result>, e: Ending)
    requires ValidRules(ctx.rules) && ctx.stats.base >= 0.0
  {
    || (e.Returned? && RowAnswers(db, q, hash, ctx, encode, decode, e.outcome))
    || match Decide(q, hash, ctx, encode)
       case Refused(error) => e == Returned(Some(ErrorAnswer(q, error, ctx.inventoryRevision, encode)))
       case Proposed(c, _) =>
         || (e == Returned(None) && exists before <- met :: CommitRequest(before, c).1.Thrown?)
         || (e == StackOverflow && Filed(KeyOf(q, ctx)) in db.journal)
         || exists i, j :: 0 <= i < j < |met| && CommitRequest(met[i], c).1 == Reply(Status.StaleInventoryRevision)
              && e == Returned(StaleAnswer(met[j], q, ctx, encode))
  }

  // One lemma for each of the reasons.

  lemma RowExplains(met: seq<Db>, db: Db, q: Request, hash: Bytes, ctx: Context, encode: Result -> Bytes,
                    decode: Bytes -> Option<Result>, r: Option<Outcome>)
    requires ValidRules(ctx.rules) && ctx.stats.base >= 0.0 && RowAnswers(db, q, hash, ctx, encode, decode, r)
    ensures Explained(met, db, q, hash, ctx, encode, decode, Returned(r))
  {
    hide Decide, RowAnswers;
  }

  lemma RefusalExplains(met: seq<Db>, db: Db, q: Request, hash: Bytes, ctx: Context, encode: Result -> Bytes,
                        decode: Bytes -> Option<Result>, error: Error)
    requires ValidRules(ctx.rules) && ctx.stats.base >= 0.0 && Decide(q, hash, ctx, encode) == Refused(error)
    ensures Explained(met, db, q, hash, ctx, encode, decode, Returned(Some(ErrorAnswer(q, error, ctx.inventoryRevision, encode))))
  {
    hide Decide, RowAnswers;
  }

  lemma ThrowExplains(met: seq<Db>, db: Db, q: Request, hash: Bytes, ctx: Context, encode: Result -> Bytes,
                      decode: Bytes -> Option<Result>, i: nat)
    requires ValidRules(ctx.rules) && ctx.stats.base >= 0.0 && Decide(q, hash, ctx, encode).Proposed?
    requires i < |met| && CommitRequest(met[i], Decide(q, hash, ctx, encode).commit).1.Thrown?
    ensures Explained(met, db, q, hash, ctx, encode, decode, Returned(None))
  {
    hide Decide, RowAnswers, CommitRequest;
    assert met[i] in met;
  }

  lemma StaleExplains(met: seq<Db>, db: Db, q: Request, hash: Bytes, ctx: Context, encode: Result -> Bytes,
                      decode: Bytes -> Option<Result>, i: nat, j: nat)
    requires ValidRules(ctx.rules) && ctx.stats.base >= 0.0 && Decide(q, hash, ctx, encode).Proposed?
    requires i < j < |met| && CommitRequest(met[i], Decide(q, hash, ctx, encode).commit).1 == Reply(Status.StaleInventoryRevision)
    ensures Explained(met, db, q, hash, ctx, encode, decode, Returned(StaleAnswer(met[j], q, ctx, encode)))
  {
    hide Decide, RowAnswers, CommitRequest, StaleAnswer;
  }

  lemma OverflowExplains(met: seq<Db>, db: Db, q: Request, hash: Bytes, ctx: Context, encode: Result -> Bytes,
                         decode: Bytes -> Option<Result>)
    requires ValidRules(ctx.rules) && ctx.stats.base >= 0.0 && Decide(q, hash, ctx, encode).Proposed?
    requires Filed(KeyOf(q, ctx)) in db.journal
    ensures Explained(met, db, q, hash, ctx, encode, decode, StackOverflow)
  {
    hide Decide, RowAnswers, CommitRequest;
  }

  /** What explains a later activation explains the call. */
  lemma ExplainedSince(met: seq<Db>, n: nat, db: Db, q: Request, hash: Bytes, ctx: Context, encode: Result -> Bytes,
                       decode: Bytes -> Option<Result>, e: Ending)
    requires ValidRules(ctx.rules) && ctx.stats.base >= 0.0 && n <= |met|
    requires Explained(met[n..], db, q, hash, ctx, encode, decode, e)
    ensures Explained(met, db, q, hash, ctx, encode, decode, e)
  {
    hide Decide, RowAnswers, CommitRequest, StaleAnswer, ErrorAnswer;
    match Decide(q, hash, ctx, encode)
    case Refused(_) =>
    case Proposed(c, _) =>
      if i, j :| 0 <= i < j < |met[n..]| && CommitRequest(met[n..][i], c).1 == Reply(Status.StaleInventoryRevision)
                 && e == Returned(StaleAnswer(met[n..][j], q, ctx, encode)) {
        assert met[n + i] == met[n..][i] && met[n + j] == met[n..][j];
      }
  }

  /** What a call writes: the commit that it proposes, or the rejection that it answers with. */
  ghost predicate Wrote(w: Work, q: Request, hash: Bytes, ctx: Context, encode: Result -> Bytes, e: Ending)
    requires ValidRules(ctx.rules) && ctx.stats.base >= 0.0
  {
    match w
    case CommitWork(c) => Decide(q, hash, ctx, encode).Proposed? && Decide(q, hash, ctx, encode).commit == c
    case RejectWork(key, h, payload) =>
      && key == KeyOf(q, ctx) && h == hash && e.Answers()
      && !e.outcome.value.replayed && !e.outcome.value.committed && !e.outcome.value.result.accepted
      && payload == e.outcome.value.encoded == encode(e.outcome.value.result)
    case _ => false
  }

  /** Every write of a call is one of these, and without a commit only the journal has been touched. */
  ghost predicate Writes(own: seq<(Db, Work)>, q: Request, hash: Bytes, ctx: Context, encode: Result -> Bytes, e: Ending)
    requires ValidRules(ctx.rules) && ctx.stats.base >= 0.0
  {
    forall p <- own :: Wrote(p.1, q, hash, ctx, encode, e) && (!e.Commits() ==> OnlyJournal(p.0, p.1))
  }

  /** The row that an answer leaves behind, where `own` is what the call has written: a commit under the key as it is
      filed; any other answer under the whole key, where a rejection of this call is the row unless another write came
      first. Only an answer from a row is given without writing it. */
  ghost predicate LeavesRow(own: seq<(Db, Work)>, db: Db, q: Request, hash: Bytes, ctx: Context, o: Outcome) {
    if o.committed then
      Filed(KeyOf(q, ctx)) in db.journal && db.journal[Filed(KeyOf(q, ctx))] == Entry(hash, Accepted, o.encoded)
    else
      && KeyOf(q, ctx) in db.journal
      && (|| o.replayed || o.result.error in {Error.DuplicateRequestConflict, RequestPending}
          || (&& own != [] && own[|own| - 1].1 == RejectWork(KeyOf(q, ctx), hash, o.encoded)
              && (KeyOf(q, ctx) !in own[|own| - 1].0.journal ==> db.journal[KeyOf(q, ctx)] == Entry(hash, Rejected, o.encoded))))
  }

  /** What a call does for a key without a row when no other connection writes, however deep the stack is. */
  function Undisturbed(db: Db, q: Request, hash: Bytes, ctx: Context, encode: Result -> Bytes): (Db, Ending)
    requires ValidRules(ctx.rules) && ctx.stats.base >= 0.0
  {
    match Decide(q, hash, ctx, encode)
    case Refused(error) => Denied(db, q, hash, ctx, ErrorAnswer(q, error, ctx.inventoryRevision, encode))
    case Proposed(c, outcome) =>
      match CommitRequest(db, c)
      case (_, Thrown) => (db, Returned(None))
      case (next, Reply(Committed)) => (next, Returned(Some(outcome)))
      case (_, Reply(StaleInventoryRevision)) => AfterStale(db, q, hash, ctx, encode)
      case _ => (db, StackOverflow)
  }

  function AfterStale(db: Db, q: Request, hash: Bytes, ctx: Context, encode: Result -> Bytes): (Db, Ending) {
    match StaleAnswer(db, q, ctx, encode)
    case None => (db, Returned(None))
    case Some(o) => Denied(db, q, hash, ctx, o)
  }

  function Denied(db: Db, q: Request, hash: Bytes, ctx: Context, o: Outcome): (Db, Ending) {
    (Apply(db, RejectWork(KeyOf(q, ctx), hash, o.encoded)), Returned(Some(o)))
  }

  /** A proposal of the stored character's owner, at the stored inventory revision, with no row in the way. */
  predicate Ready(db: Db, q: Request, hash: Bytes, ctx: Context, encode: Result -> Bytes)
    requires ValidRules(ctx.rules) && ctx.stats.base >= 0.0
  {
    && ctx.account > 0 && ctx.character > 0 && q.requestId != [] && hash != [] && Filed(KeyOf(q, ctx)) !in db.journal
    && ctx.character in db.characters && db.characters[ctx.character].account == ctx.account
    && db.characters[ctx.character].revision == ctx.inventoryRevision
    && match Decide(q, hash, ctx, encode)
       case Refused(_) => false
       case Proposed(c, _) => c.payload != [] && forall r <- c.records :: r.recordId != []
  }

  /** Undisturbed, exactly such a proposal commits. */
  lemma ReadyCommits(db: Db, q: Request, hash: Bytes, ctx: Context, encode: Result -> Bytes)
    requires ValidRules(ctx.rules) && ctx.stats.base >= 0.0
    ensures Undisturbed(db, q, hash, ctx, encode).1.Commits() <==> Ready(db, q, hash, ctx, encode)
    ensures Ready(db, q, hash, ctx, encode) ==>
              var p := Decide(q, hash, ctx, encode);
              && CommitRequest(db, p.commit).1 == Reply(Committed)
              && Undisturbed(db, q, hash, ctx, encode) == (CommitRequest(db, p.commit).0, Returned(Some(p.outcome)))
  {
    hide Decide;
    if Decide(q, hash, ctx, encode).Proposed? {
      ProposedMeans(q, hash, ctx, encode);
    }
  }

  /** Undisturbed, a call for a key without a row enters itself until the stack is used up exactly when its request
      is a proposal and the commit finds a row under the shorter id; so only for an id with a NUL. */
  lemma EndlessExactly(db: Db, q: Request, hash: Bytes, ctx: Context, encode: Result -> Bytes)
    requires ValidRules(ctx.rules) && ctx.stats.base >= 0.0 && KeyOf(q, ctx) !in db.journal
    ensures Undisturbed(db, q, hash, ctx, encode).1.StackOverflow?
            <==> && Decide(q, hash, ctx, encode).Proposed? && Filed(KeyOf(q, ctx)) in db.journal
                 && ctx.account > 0 && ctx.character > 0 && encode(Decide(q, hash, ctx, encode).outcome.result) != []
    ensures Undisturbed(db, q, hash, ctx, encode).1.StackOverflow? ==> !NoNul(q.requestId)
  {
    hide Decide, ValidRequest, ErrorAnswer;
    if Decide(q, hash, ctx, encode).Proposed? {
      ProposedMeans(q, hash, ctx, encode);
      ValidHasId(q, hash, ctx);
    }
  }

  lemma ValidHasId(q: Request, hash: Bytes, ctx: Context)
    requires ValidRequest(q, hash, ctx)
    ensures q.requestId != [] && hash != []
  {
  }

  /** A proposal stands for a valid request and its brewed batch, on the inventory revision it was prepared on and for
    the next one; around after the largest. */
  lemma ProposedMeans(q: Request, hash: Bytes, ctx: Context, encode: Result -> Bytes)
    requires ValidRules(ctx.rules) && ctx.stats.base >= 0.0 && Decide(q, hash, ctx, encode).Proposed?
    ensures ValidRequest(q, hash, ctx) && Brewing(q, ctx).Brewed?
    ensures var (c, o) := (Decide(q, hash, ctx, encode).commit, Decide(q, hash, ctx, encode).outcome);
            && o.committed && !o.replayed && o.result.attempts == Brewing(q, ctx).attempts
            && o.result == Result(q.requestId, true, NoError, o.revision, ctx.commitSequence, o.result.attempts)
            && o.inventory == c.inventory == ctx.reconcile(Brewing(q, ctx).inventory)
            && o.newRecords == c.records == Brewing(q, ctx).records
            && c.key == KeyOf(q, ctx) && c.hash == hash && c.payload == o.encoded == encode(o.result)
            && c.expectedRevision == ctx.inventoryRevision && c.resultingRevision == o.revision && c.stats == o.stats
            && o.revision == (ctx.inventoryRevision + 1) % 0x1_0000_0000_0000_0000
  {
    hide ValidRequest, ValidationError, Brewing;
    NoErrorIsValid(q, hash, ctx);
  }

  /** The statistics of a proposal: the skill is used once for each attempt that succeeded, all of them must go through,
    and the result is saved exactly when it differs from what the character had. */
  lemma ProposedStats(q: Request, hash: Bytes, ctx: Context, encode: Result -> Bytes)
    requires ValidRules(ctx.rules) && ctx.stats.base >= 0.0 && Decide(q, hash, ctx, encode).Proposed?
    ensures var o := Decide(q, hash, ctx, encode).outcome;
            var after := SkillAfter(ctx.rules, ctx.stats, |Succeeding(o.result.attempts)|);
            && after.Some? && (o.stats.None? <==> after.value == ctx.stats) && (o.stats.Some? ==> o.stats == after)
  {
    hide ValidationError, Brewing, SkillAfter;
    SuccessesCount(Decide(q, hash, ctx, encode).outcome.result.attempts);
  }

  /** Exactly a valid request whose attempts and skill uses go through is proposed; another is refused with its first
    error, and a failing skill use counts as a failure of the mechanics. */
  lemma ProposedExactly(q: Request, hash: Bytes, ctx: Context, encode: Result -> Bytes)
    requires ValidRules(ctx.rules) && ctx.stats.base >= 0.0
    ensures var p, b := Decide(q, hash, ctx, encode), Brewing(q, ctx);
            && (p.Proposed? <==> ValidRequest(q, hash, ctx) && b.Brewed?
                                 && SkillAfter(ctx.rules, ctx.stats, |Succeeding(b.attempts)|).Some?)
            && (!ValidRequest(q, hash, ctx) ==> p == Refused(ValidationError(q, hash, ctx)))
            && (ValidRequest(q, hash, ctx) && !p.Proposed? ==>
                  p == Refused(if b.BrewFailed? then b.error else MechanicsValidationFailed))
  {
    hide ValidRequest, ValidationError, Brewing, SkillAfter;
    NoErrorIsValid(q, hash, ctx);
    if Brewing(q, ctx).Brewed? { SuccessesCount(Brewing(q, ctx).attempts); }
  }

  /** A proposal that commits leaves its inventory, statistics and revision, and touches no other character. */
  lemma ProposalAdvances(before: Db, q: Request, hash: Bytes, ctx: Context, encode: Result -> Bytes)
    requires ValidRules(ctx.rules) && ctx.stats.base >= 0.0 && Decide(q, hash, ctx, encode).Proposed?
    ensures var (c, o) := (Decide(q, hash, ctx, encode).commit, Decide(q, hash, ctx, encode).outcome);
            Commits(before, CommitWork(c)) ==> CommittedBrew(q, hash, ctx, encode, before, c, o)
  {
    hide Decide, CommitRequest, Brewing, ValidRequest;
    ProposedMeans(q, hash, ctx, encode);
    AllOrNothing(before, Decide(q, hash, ctx, encode).commit);
  }

  lemma FiledWhole(key: Key)
    ensures NoNul(key.requestId) ==> Filed(key) == key
  {
  }

  lemma CommitIsLeft(own: seq<(Db, Work)>, before: Db, q: Request, hash: Bytes, ctx: Context, c: Commit, o: Outcome)
    requires CommitRequest(before, c).1 == Reply(Committed) && c.key == KeyOf(q, ctx) && c.hash == hash && c.payload == o.encoded
    requires o.committed
    ensures LeavesRow(own, CommitRequest(before, c).0, q, hash, ctx, o)
  {
    AllOrNothing(before, c);
  }

  /** The commit comes first, and `rest` is what the call has written since. */
  lemma AfterTheCommit(before: Db, rest: seq<(Db, Work)>, db: Db, q: Request, hash: Bytes, ctx: Context, encode: Result -> Bytes, e: Ending)
    requires ValidRules(ctx.rules) && ctx.stats.base >= 0.0 && Decide(q, hash, ctx, encode).Proposed?
    requires e.Commits() || OnlyJournal(before, CommitWork(Decide(q, hash, ctx, encode).commit))
    requires Writes(rest, q, hash, ctx, encode, e) && (e.Answers() && !e.Commits() ==> LeavesRow(rest, db, q, hash, ctx, e.outcome.value))
    ensures var own := [(before, CommitWork(Decide(q, hash, ctx, encode).commit))] + rest;
            && Writes(own, q, hash, ctx, encode, e)
            && (e.Answers() && !e.Commits() ==> LeavesRow(own, db, q, hash, ctx, e.outcome.value))
  {
    hide Decide, OnlyJournal;
  }

  lemma NothingWritten(q: Request, hash: Bytes, ctx: Context, encode: Result -> Bytes, e: Ending)
    requires ValidRules(ctx.rules) && ctx.stats.base >= 0.0
    ensures Writes([], q, hash, ctx, encode, e)
  {
  }

  lemma RowIsLeft(own: seq<(Db, Work)>, db: Db, q: Request, hash: Bytes, ctx: Context, encode: Result -> Bytes,
                  decode: Bytes -> Option<Result>, o: Outcome)
    requires RowAnswers(db, q, hash, ctx, encode, decode, Some(o))
    ensures LeavesRow(own, db, q, hash, ctx, o)
  {
  }

  lemma NotCarriedOut(db: Db, c: Commit)
    ensures CommitRequest(db, c).1 != Reply(Committed) ==> OnlyJournal(db, CommitWork(c))
    ensures CommitRequest(db, c).1 in {Reply(DuplicateRequest), Reply(Status.DuplicateRequestConflict)} ==> Filed(c.key) in db.journal
    ensures CommitRequest(db, c).1 in {Reply(Committed), Reply(Status.StaleInventoryRevision)} ==> Filed(c.key) !in db.journal
  {}

  class AlchemyService {
    const database: CraftDatabase
    const encode: Result -> Bytes
    const decode: Bytes -> Option<Result>

    constructor (database: CraftDatabase, encode: Result -> Bytes, decode: Bytes -> Option<Result>)
      ensures this.database == database && this.encode == encode && this.decode == decode
    {
      this.database, this.encode, this.decode := database, encode, decode;
    }

    /** A journaled rejection; an existing row for the key is left alone. */
    method Reject(q: Request, hash: Bytes, ctx: Context, error: Error, revision: u64) returns (o: Outcome)
      modifies database
      ensures Later(old(database.db), database.db)
      ensures o == ErrorAnswer(q, error, revision, encode)
      ensures !o.committed && !o.replayed && !o.result.accepted && o.encoded == encode(o.result)
      ensures |database.met| == |old(database.met)| + 1 && old(database.met) <= database.met
      ensures var before := database.met[|old(database.met)|];
              && Later(old(database.db), before) && (old(database.Alone()) ==> database.Alone() && before == old(database.db))
              && database.own == old(database.own) + [(before, RejectWork(KeyOf(q, ctx), hash, o.encoded))]
              && database.db == Apply(before, RejectWork(KeyOf(q, ctx), hash, o.encoded))
              && OnlyJournal(before, RejectWork(KeyOf(q, ctx), hash, o.encoded))
    {
      var result := MakeError(q.requestId, error, revision);
      o := Answer(result, encode(result), false);
      var reply, before := database.Write(RejectWork(KeyOf(q, ctx), hash, o.encoded));
    }

    method FromJournal(e: Entry, q: Request, hash: Bytes, ctx: Context) returns (r: Option<Outcome>)
      ensures AnsweredFrom(e, q, hash, ctx, encode, decode, r) && (r.Some? ==> !r.value.committed)
      ensures r.Some? && !r.value.replayed ==> r.value.encoded == encode(r.value.result)
    {
      if e.hash != hash {
        var conflict := MakeError(q.requestId, Error.DuplicateRequestConflict, ctx.inventoryRevision);
        return Some(Answer(conflict, encode(conflict), false));
      }
      if e.progress == Accepted || e.progress == Rejected {
        var decoded := decode(e.payload);
        if decoded.None? { return None; }
        return Some(Answer(decoded.value, e.payload, true));
      }
      var pending := MakeError(q.requestId, RequestPending, ctx.inventoryRevision);
      return Some(Answer(pending, encode(pending), false));
    }

    /** Validation, the attempts, the skill uses: everything up to the commit. */
    method Propose(q: Request, hash: Bytes, ctx: Context) returns (p: Proposal)
      requires ValidRules(ctx.rules) && ctx.stats.base >= 0.0
      ensures p == Decide(q, hash, ctx, encode)
    {
      hide Brewing, ValidRequest, SkillAfter, ValidationError;
      var error := Validate(q, hash, ctx);
      if error != NoError { return Refused(error); }
      var brewed := Brew(q, ctx);
      if brewed.BrewFailed? { return Refused(brewed.error); }
      var used, raises := UseSkill(ctx.rules, ctx.stats, Successes(brewed.attempts));
      if used.None? { return Refused(MechanicsValidationFailed); }
      var stats := if used.value == ctx.stats then None else used;
      var revision := NextRevision(ctx.inventoryRevision);
      var inventory := ctx.reconcile(brewed.inventory);
      var result := Result(q.requestId, true, NoError, revision, ctx.commitSequence, brewed.attempts);
      return Proposed(
        Commit(KeyOf(q, ctx), hash, encode(result), ctx.inventoryRevision, revision, brewed.records, inventory, stats),
        Outcome(result, encode(result), brewed.records, false, true, inventory, revision, stats));
    }

    /** `stack` is how many times the call can still enter itself. It does so after a duplicate reply; for an id without
        a NUL the second activation finds the row, so it happens at most once. */
    method Execute(q: Request, hash: Bytes, ctx: Context, stack: nat) returns (e: Ending)
      requires ValidRules(ctx.rules) && ctx.stats.base >= 0.0
      modifies database
      ensures Later(old(database.db), database.db) && old(database.own) <= database.own && old(database.met) <= database.met
      ensures NoNul(q.requestId) && stack > 0 ==> e.Returned?
      // a journaled request is answered from its row and writes nothing
      ensures KeyOf(q, ctx) in old(database.db.journal) ==>
                && database.own == old(database.own) && !e.Commits()
                && e.Returned? && RowAnswers(database.db, q, hash, ctx, encode, decode, e.outcome)
      // a committed outcome is one commit of the whole batch
      ensures e.Commits() ==>
                && Filed(KeyOf(q, ctx)) !in old(database.db.journal)
                && exists before, c :: Later(old(database.db), before)
                     && database.own == old(database.own) + [(before, CommitWork(c))]
                     && CommittedBrew(q, hash, ctx, encode, before, c, e.outcome.value)
                     && database.db == Apply(before, CommitWork(c))
      // which moves the revision on from the one the request was prepared on
      ensures e.Commits() ==>
                Advances(database.own[|database.own| - 1].0, database.db, ctx, e.outcome.value)
      // every other ending has a reason
      ensures !e.Commits() ==> Explained(database.met[|old(database.met)|..], database.db, q, hash, ctx, encode, decode, e)
      // undisturbed, what is decided happens
      ensures old(database.Alone()) ==>
                && database.Alone()
                && (if KeyOf(q, ctx) in old(database.db.journal) then database.db == old(database.db)
                    else (database.db, e) == Undisturbed(old(database.db), q, hash, ctx, encode))
      // nothing is written but the proposed commit and the rejection that is answered; without a commit only the
      // journal has been touched; and every answer leaves a row
      ensures Writes(database.own[|old(database.own)|..], q, hash, ctx, encode, e)
      ensures e.Answers() ==> LeavesRow(database.own[|old(database.own)|..], database.db, q, hash, ctx, e.outcome.value)
      ensures e.Answers() && !e.outcome.value.replayed ==> e.outcome.value.encoded == encode(e.outcome.value.result)
      decreases stack, 1
    {
      hide Decide, CommitRequest, OnlyJournal, Explained, ErrorAnswer, Undisturbed, ValidRules, Filed;
      ghost var seen, wrote := |database.met|, |database.own|;
      var existing := database.LoadRequest(KeyOf(q, ctx));
      if existing.Some? {
        var r := FromJournal(existing.value, q, hash, ctx);
        RowExplains(database.met[seen..], database.db, q, hash, ctx, encode, decode, r);
        if r.Some? { RowIsLeft(database.own[wrote..], database.db, q, hash, ctx, encode, decode, r.value); }
        return Returned(r);
      }
      var proposal := Propose(q, hash, ctx);
      if proposal.Refused? {
        var o := Reject(q, hash, ctx, proposal.error, ctx.inventoryRevision);
        RefusalExplains(database.met[seen..], database.db, q, hash, ctx, encode, decode, proposal.error);
        UndisturbedRefusal(old(database.db), q, hash, ctx, encode);
        return Returned(Some(o));
      }
      ProposedMeans(q, hash, ctx, encode);
      e := Carry(q, hash, ctx, proposal.commit, proposal.outcome, seen, stack);
    }

    /** The commit of a proposal. */
    method Carry(q: Request, hash: Bytes, ctx: Context, c: Commit, outcome: Outcome, ghost seen: nat, stack: nat)
      returns (e: Ending)
      requires ValidRules(ctx.rules) && ctx.stats.base >= 0.0 && Decide(q, hash, ctx, encode) == Proposed(c, outcome)
      requires seen <= |database.met| && c.key == KeyOf(q, ctx) && c.hash == hash && c.payload == outcome.encoded
      requires outcome.committed && outcome.encoded == encode(outcome.result)
      modifies database
      ensures Later(old(database.db), database.db) && old(database.own) <= database.own && old(database.met) <= database.met
      ensures NoNul(q.requestId) && stack > 0 ==> e.Returned?
      ensures e.Commits() ==>
                && Filed(KeyOf(q, ctx)) !in old(database.db.journal)
                && exists before :: Later(old(database.db), before)
                     && database.own == old(database.own) + [(before, CommitWork(c))]
                     && CommittedBrew(q, hash, ctx, encode, before, c, e.outcome.value)
                     && database.db == Apply(before, CommitWork(c))
      ensures !e.Commits() ==> Explained(database.met[seen..], database.db, q, hash, ctx, encode, decode, e)
      ensures old(database.Alone()) ==>
                && database.Alone()
                && (KeyOf(q, ctx) !in old(database.db.journal) ==>
                      (database.db, e) == Undisturbed(old(database.db), q, hash, ctx, encode))
      ensures Writes(database.own[|old(database.own)|..], q, hash, ctx, encode, e)
      ensures e.Answers() ==> LeavesRow(database.own[|old(database.own)|..], database.db, q, hash, ctx, e.outcome.value)
      ensures e.Answers() && !e.outcome.value.replayed ==> e.outcome.value.encoded == encode(e.outcome.value.result)
      decreases stack, 0
    {
      hide Decide, CommitRequest, OnlyJournal, Explained, StaleAnswer, AfterStale, Undisturbed, ValidRules, Filed, RowAnswers;
      hide Writes, LeavesRow, CommittedBrew, ErrorAnswer;
      var reply, before := database.Write(CommitWork(c));
      ghost var at := |database.met| - 1 - seen;
      AllOrNothing(before, c);
      NotCarriedOut(before, c);
      if before == old(database.db) { UndisturbedCases(before, q, hash, ctx, encode); }
      ghost var own := [(before, CommitWork(c))];
      assert database.own[|old(database.own)|..] == own + [];
      NothingWritten(q, hash, ctx, encode, Returned(Some(outcome)));
      NothingWritten(q, hash, ctx, encode, Returned(None));
      NothingWritten(q, hash, ctx, encode, StackOverflow);
      if reply == Reply(Committed) {
        ProposalAdvances(before, q, hash, ctx, encode);
        CommitIsLeft(own + [], before, q, hash, ctx, c, outcome);
        e := Returned(Some(outcome));
        AfterTheCommit(before, [], database.db, q, hash, ctx, encode, e);
        return;
      }
      assert database.met[seen..][at] == before;
      if reply.Thrown? {
        ThrowExplains(database.met[seen..], database.db, q, hash, ctx, encode, decode, at);
        e := Returned(None);
        AfterTheCommit(before, [], database.db, q, hash, ctx, encode, e);
        return;
      }
      ghost var wrote, next := |database.own|, |database.met|;
      if reply.status == Status.StaleInventoryRevision {
        var r := RejectStale(q, hash, ctx);
        e := Returned(r);
        assert database.met[seen..][at] == before && database.met[seen..][at + 1] == database.met[next];
        StaleExplains(database.met[seen..], database.db, q, hash, ctx, encode, decode, at, at + 1);
      } else if stack == 0 {
        e := StackOverflow;
        OverflowExplains(database.met[seen..], database.db, q, hash, ctx, encode, decode);
        assert database.own[wrote..] == [];
      } else {
        FiledWhole(KeyOf(q, ctx));
        e := Execute(q, hash, ctx, stack - 1);
        assert database.met[seen..][at + 1..] == database.met[next..];
        ExplainedSince(database.met[seen..], at + 1, database.db, q, hash, ctx, encode, decode, e);
      }
      assert database.own[|old(database.own)|..] == own + database.own[wrote..];
      AfterTheCommit(before, database.own[wrote..], database.db, q, hash, ctx, encode, e);
    }

    /** The answer to a stale inventory revision, with the revision that is stored by now. */
    method RejectStale(q: Request, hash: Bytes, ctx: Context) returns (r: Option<Outcome>)
      requires ValidRules(ctx.rules) && ctx.stats.base >= 0.0
      modifies database
      ensures Later(old(database.db), database.db) && old(database.own) <= database.own
      ensures old(database.met) <= database.met && |old(database.met)| < |database.met|
      ensures r == StaleAnswer(database.met[|old(database.met)|], q, ctx, encode)
      ensures r.Some? ==> !r.value.committed && !r.value.replayed && r.value.encoded == encode(r.value.result)
      ensures r.Some? ==> LeavesRow(database.own[|old(database.own)|..], database.db, q, hash, ctx, r.value)
      ensures Writes(database.own[|old(database.own)|..], q, hash, ctx, encode, Returned(r))
      ensures old(database.Alone()) ==> database.Alone() && (database.db, Returned(r)) == AfterStale(old(database.db), q, hash, ctx, encode)
    {
      hide OnlyJournal, ErrorAnswer, RevisionOf, Filed, ValidRules, Decide;
      var current := database.LoadRevision(ctx.character);
      if current.None? { return None; }
      var o := Reject(q, hash, ctx, Error.StaleInventoryRevision, current.value);
      r := Some(o);
    }
  }

  lemma UndisturbedRefusal(db: Db, q: Request, hash: Bytes, ctx: Context, encode: Result -> Bytes)
    requires ValidRules(ctx.rules) && ctx.stats.base >= 0.0 && Decide(q, hash, ctx, encode).Refused?
    ensures Undisturbed(db, q, hash, ctx, encode)
            == Denied(db, q, hash, ctx, ErrorAnswer(q, Decide(q, hash, ctx, encode).error, ctx.inventoryRevision, encode))
  {
    hide Decide, ErrorAnswer, Denied;
  }

  lemma UndisturbedCases(db: Db, q: Request, hash: Bytes, ctx: Context, encode: Result -> Bytes)
    requires ValidRules(ctx.rules) && ctx.stats.base >= 0.0 && Decide(q, hash, ctx, encode).Proposed?
    ensures var (c, outcome) := (Decide(q, hash, ctx, encode).commit, Decide(q, hash, ctx, encode).outcome);
            var (next, reply) := CommitRequest(db, c);
            Undisturbed(db, q, hash, ctx, encode)
            == if reply.Thrown? then (db, Returned(None))
               else if reply.status == Committed then (next, Returned(Some(outcome)))
               else if reply.status == Status.StaleInventoryRevision then AfterStale(db, q, hash, ctx, encode)
               else (db, StackOverflow)
  {
    hide Decide, CommitRequest, AfterStale;
  }

  /** A request that is sent again, whatever has happened in between and however the context has changed. What was
      committed under an id without a NUL comes back with its original bytes, and so does a rejection that this request
      journaled; nothing more is written. For an id with a NUL nothing is replayed from the commit. */
  method ExecuteAgain(service: AlchemyService, q: Request, hash: Bytes, ctx: Context, later: Context, stack: nat)
    returns (first: Ending, second: Ending, ghost middle: Db)
    requires ValidRules(ctx.rules) && ctx.stats.base >= 0.0 && ValidRules(later.rules) && later.stats.base >= 0.0
    requires KeyOf(q, ctx) == KeyOf(q, later) && forall x :: service.decode(service.encode(x)) == Some(x)
    modifies service.database
    ensures first.Commits() && NoNul(q.requestId) ==>
              && second == Returned(Some(Answer(first.outcome.value.result, first.outcome.value.encoded, true)))
              && |service.database.own| == |old(service.database.own)| + 1
    ensures first.Answers() && !first.Commits() && !first.outcome.value.replayed
            && KeyOf(q, ctx) in middle.journal && middle.journal[KeyOf(q, ctx)] == Entry(hash, Rejected, first.outcome.value.encoded) ==>
              second == Returned(Some(Answer(first.outcome.value.result, first.outcome.value.encoded, true)))
    ensures first.Commits() && !NoNul(q.requestId) && old(service.database.Alone()) && KeyOf(q, ctx) !in old(service.database.db.journal) ==>
              !(second.Answers() && second.outcome.value.replayed) && !second.Commits()
  {
    hide Decide, CommitRequest, Wrote, Explained, Undisturbed, OnlyJournal, ValidRules;
    ghost var start := service.database.db;
    first := service.Execute(q, hash, ctx, stack);
    middle := service.database.db;
    NeverReplays(middle, q, hash, later, service.encode);
    if first.Commits() {
      CommitIsFiled(start, q, hash, ctx, service.encode);
      ghost var last := service.database.own[|service.database.own| - 1];
      AllOrNothing(last.0, last.1.commit);
      ProposedMeans(q, hash, ctx, service.encode);
    }
    second := service.Execute(q, hash, later, stack);
  }

  /** Undisturbed, a second request that was prepared on the inventory the first one has used does not commit, whoever
    sends it: a batch leaves the revision it was prepared on for good. */
  method ExecuteOnOldInventory(service: AlchemyService, q: Request, hash: Bytes, ctx: Context,
                               other: Request, hash': Bytes, ctx': Context, stack: nat) returns (first: Ending, second: Ending)
    requires ValidRules(ctx.rules) && ctx.stats.base >= 0.0 && ValidRules(ctx'.rules) && ctx'.stats.base >= 0.0
    requires ctx'.character == ctx.character && ctx'.inventoryRevision == ctx.inventoryRevision
    requires service.database.Alone()
    modifies service.database
    ensures first.Commits() ==>
              && !second.Commits() && ctx.character in service.database.db.characters
              && service.database.db.characters[ctx.character].revision
                 == (ctx.inventoryRevision + 1) % 0x1_0000_0000_0000_0000 == first.outcome.value.result.inventoryRevision
  {
    hide Decide, CommitRequest, Wrote, Explained, Undisturbed, OnlyJournal, ValidRules, Ready, LeavesRow, Writes;
    ghost var start := service.database.db;
    first := service.Execute(q, hash, ctx, stack);
    ghost var middle := service.database.db;
    OldInventory(middle, other, hash', ctx', service.encode);
    second := service.Execute(other, hash', ctx', stack);
  }

  lemma OldInventory(db: Db, q: Request, hash: Bytes, ctx: Context, encode: Result -> Bytes)
    requires ValidRules(ctx.rules) && ctx.stats.base >= 0.0
    ensures ctx.character in db.characters && db.characters[ctx.character].revision != ctx.inventoryRevision ==>
              var (next, e) := Undisturbed(db, q, hash, ctx, encode);
              !e.Commits() && next.characters == db.characters
  {
    hide Decide, CommitRequest;
    ReadyCommits(db, q, hash, ctx, encode);
    if Decide(q, hash, ctx, encode).Proposed? {
      ProposedMeans(q, hash, ctx, encode);
      UndisturbedCases(db, q, hash, ctx, encode);
      AllOrNothing(db, Decide(q, hash, ctx, encode).commit);
    }
  }

  /** An undisturbed call for a key without a row replays nothing. */
  lemma NeverReplays(db: Db, q: Request, hash: Bytes, ctx: Context, encode: Result -> Bytes)
    requires ValidRules(ctx.rules) && ctx.stats.base >= 0.0
    ensures var e := Undisturbed(db, q, hash, ctx, encode).1; !(e.Answers() && e.outcome.value.replayed)
  {
    hide ValidationError, Brewing, SkillAfter, CommitRequest;
  }

  lemma CommitIsFiled(db: Db, q: Request, hash: Bytes, ctx: Context, encode: Result -> Bytes)
    requires ValidRules(ctx.rules) && ctx.stats.base >= 0.0
    ensures Undisturbed(db, q, hash, ctx, encode).1.Commits() && KeyOf(q, ctx) !in db.journal && !NoNul(q.requestId) ==>
              KeyOf(q, ctx) !in Undisturbed(db, q, hash, ctx, encode).0.journal
  {
    hide Decide, CommitRequest, Filed;
    if Decide(q, hash, ctx, encode).Proposed? {
      var c := Decide(q, hash, ctx, encode).commit;
      ProposedMeans(q, hash, ctx, encode);
      if CommitRequest(db, c).1 == Reply(Committed) && c.key !in db.journal { FoundAgain(db, c); }
    }
  }

  // ----- whole runs -----------------------------------------------------------------------------------------

  /** If a write is filed under the key, it is an alchemy request's: a commit with the bytes of an accepted result, or a
      rejection with those of a rejected one. */
  ghost predicate Honest(w: Work, key: Key, encode: Result -> Bytes) {
    match w
    case CommitWork(c) => Filed(c.key) == key ==> exists r: Result :: r.accepted && c.payload == encode(r)
    case RejectWork(k, _, payload) => k == key ==> exists r: Result :: !r.accepted && payload == encode(r)
    case PendingWork(k, _) => k != key
    case CompleteWork(k, _, _, _) => k != key
    case SaveWork(_, _) => true
  }

  /** Every write of execute is. */
  lemma CallsAreHonest(own: seq<(Db, Work)>, q: Request, hash: Bytes, ctx: Context, encode: Result -> Bytes, e: Ending, key: Key)
    requires ValidRules(ctx.rules) && ctx.stats.base >= 0.0 && Writes(own, q, hash, ctx, encode, e)
    ensures forall p <- own :: Honest(p.1, key, encode)
  {
    hide Decide, OnlyJournal;
    forall p <- own
      ensures Honest(p.1, key, encode)
    {
      if p.1.CommitWork? { ProposedMeans(q, hash, ctx, encode); }
    }
  }

  /** Entry `i` of a run is a commit that took effect and was filed under the key. */
  predicate CommittedAt(db: Db, works: seq<Work>, i: nat, key: Key) {
    i < |works| && Commits(Run(db, works[..i]), works[i]) && Filed(works[i].commit.key) == key
  }

  /** A row that reads as accepted was put there by exactly one commit of the run, with these bytes. */
  lemma AcceptedRowIsCommitted(db: Db, works: seq<Work>, key: Key, encode: Result -> Bytes, decode: Bytes -> Option<Result>)
    returns (i: nat)
    requires key !in db.journal && key in Run(db, works).journal
    requires forall w <- works :: Honest(w, key, encode)
    requires forall r :: decode(encode(r)) == Some(r)
    requires var read := decode(Run(db, works).journal[key].payload); read.Some? && read.value.accepted
    ensures CommittedAt(db, works, i, key) && works[i].commit.payload == Run(db, works).journal[key].payload
    ensures forall j: nat :: CommittedAt(db, works, j, key) ==> j == i
  {
    hide Run, CommitRequest, Filed;
    i := RowHasWriter(db, works, key);
    var before, w := Run(db, works[..i]), works[i];
    assert Honest(w, key, encode);
    if w.CommitWork? { AllOrNothing(before, w.commit); }
    forall j: nat | CommittedAt(db, works, j, key)
      ensures j == i
    {
      if j < i { CommitsOnce(db, works, j, i); } else if i < j { CommitsOnce(db, works, i, j); }
    }
  }

  /** An answer that says accepted, the first or a replayed one, belongs to exactly one commit, whose row holds it. */
  lemma AcceptedAnswerIsCommitted(db: Db, works: seq<Work>, met: seq<Db>, q: Request, hash: Bytes, ctx: Context,
                                  encode: Result -> Bytes, decode: Bytes -> Option<Result>, o: Outcome) returns (i: nat)
    requires ValidRules(ctx.rules) && ctx.stats.base >= 0.0
    requires Filed(KeyOf(q, ctx)) !in db.journal && KeyOf(q, ctx) !in db.journal
    requires forall w <- works :: Honest(w, KeyOf(q, ctx), encode) && Honest(w, Filed(KeyOf(q, ctx)), encode)
    requires forall r :: decode(encode(r)) == Some(r)
    requires o.result.accepted
    requires if o.committed then o.encoded == encode(o.result) && LeavesRow([], Run(db, works), q, hash, ctx, o)
             else Explained(met, Run(db, works), q, hash, ctx, encode, decode, Returned(Some(o)))
    ensures CommittedAt(db, works, i, if o.committed then Filed(KeyOf(q, ctx)) else KeyOf(q, ctx))
    ensures works[i].commit.payload == o.encoded && decode(o.encoded) == Some(o.result)
    ensures forall j: nat :: CommittedAt(db, works, j, Filed(works[i].commit.key)) ==> j == i
  {
    hide Run, CommitRequest, Filed, Decide, Honest;
    i := AcceptedRowIsCommitted(db, works, if o.committed then Filed(KeyOf(q, ctx)) else KeyOf(q, ctx), encode, decode);
  }

  /** Two batches prepared on one inventory revision of a character do not both commit, under whatever keys, as long as
    no write between them sets the revision back. */
  lemma OneBatchPerRevision(db: Db, works: seq<Work>, i: nat, j: nat, encode: Result -> Bytes,
                            q: Request, hash: Bytes, ctx: Context, other: Request, hash': Bytes, ctx': Context)
    requires ValidRules(ctx.rules) && ctx.stats.base >= 0.0 && ValidRules(ctx'.rules) && ctx'.stats.base >= 0.0
    requires ctx'.character == ctx.character && ctx'.inventoryRevision == ctx.inventoryRevision
    requires i <= j < |works| && j - i < 0x1_0000_0000_0000_0000
    requires Decide(q, hash, ctx, encode).Proposed? && works[i] == CommitWork(Decide(q, hash, ctx, encode).commit)
    requires Decide(other, hash', ctx', encode).Proposed? && works[j] == CommitWork(Decide(other, hash', ctx', encode).commit)
    requires Commits(Run(db, works[..i]), works[i]) && Commits(Run(db, works[..j]), works[j])
    requires forall k :: i < k < j ==> Steady(Run(db, works[..k]), works[k], ctx.character)
    ensures i == j
  {
    hide Decide, CommitRequest, Run, Steady, Brewing, ValidRequest;
    ProposedMeans(q, hash, ctx, encode);
    ProposedMeans(other, hash', ctx', encode);
    OneAdvancePerRevision(db, works, i, j, ctx.character, ctx.inventoryRevision);
  }

  lemma {:induction false} MadePerSuccess(attempts: seq<Attempt>)
    ensures |Made(Outcomes(attempts))| == Successes(attempts)
  {
    if attempts != [] {
      var most := attempts[..|attempts| - 1];
      MadePerSuccess(most);
      assert Outcomes(attempts)[..|attempts| - 1] == Outcomes(most);
    }
  }

  /** Conservation of a valid request's batch, kind by kind: n of each chosen ingredient less, one potion
      more for each success. */
  lemma BrewingConserves(q: Request, hash: Bytes, ctx: Context, b: Brewed, refId: Bytes)
    requires ValidRequest(q, hash, ctx) && b == Brewing(q, ctx) && b.Brewed?
    ensures var made := Made(Outcomes(b.attempts));
            && |made| == Successes(b.attempts)
            && Total(b.inventory, refId)
               == Total(ctx.inventory, refId) - AttemptCount(q, ctx) * Uses(ctx.inventory, q.ingredients, refId)
                  + multiset(made)[refId]
  {
    hide Attempts, Total, Uses, ValidRequest, Brewing;
    BrewingMeans(q, ctx);
    ValidRequestIsStocked(q, hash, ctx);
    MadePerSuccess(b.attempts);
    AttemptsConserve(ctx.inventory, q.ingredients, Outcomes(b.attempts), refId);
  }

  /** And stack by stack, when identities are unique and no potion is of the kind of a chosen ingredient:
      each chosen stack is lower by n and gone exactly at zero; all others but the granted potions are as
      they were. */
  lemma BrewingLowersChosen(q: Request, hash: Bytes, ctx: Context, b: Brewed)
    requires ValidRequest(q, hash, ctx) && b == Brewing(q, ctx) && b.Brewed? && UniqueIdentities(ctx.inventory)
    requires Apart(ctx.inventory, q.ingredients, Made(Outcomes(b.attempts)))
    ensures forall id <- q.ingredients ::
              Lookup(ctx.inventory, id).Some? &&
              Lookup(b.inventory, id) == var was, n := Lookup(ctx.inventory, id).value, AttemptCount(q, ctx);
                                         if was.count > n then Some(was.(count := was.count - n)) else None
    ensures var made := Made(Outcomes(b.attempts));
            Untouched(b.inventory, q.ingredients, made) == Untouched(ctx.inventory, q.ingredients, made)
  {
    hide Attempts, ValidRequest, UniqueIdentities, Apart, Lookup, Brewing;
    BrewingMeans(q, ctx);
    ValidRequestIsStocked(q, hash, ctx);
    forall id <- q.ingredients
      ensures Lookup(b.inventory, id) == var was, n := Lookup(ctx.inventory, id).value, AttemptCount(q, ctx);
                                         if was.count > n then Some(was.(count := was.count - n)) else None
    {
      AttemptsLowerChosen(ctx.inventory, q.ingredients, Outcomes(b.attempts), id);
    }
    AttemptsLeaveOthers(ctx.inventory, q.ingredients, Outcomes(b.attempts), Made(Outcomes(b.attempts)));
  }

  /** Two contexts that list the existing potions in different orders brew the same batch: the same records,
      the same new entries, the same inventory. */
  lemma BrewingIgnoresListingOrder(q: Request, ctx: Context, other: Context)
    requires other == ctx.(world := other.world) && AlchemyRecords.Relisted(ctx.world, other.world)
    ensures Brewing(q, ctx) == Brewing(q, other)
  {
    hide After, AlchemyRecords.Relisted, Attempts;
    AfterIgnoresListingOrder(ctx, other, q.count);
  }

  lemma {:induction false} AfterIgnoresListingOrder(ctx: Context, other: Context, k: nat)
    requires other == ctx.(world := other.world) && AlchemyRecords.Relisted(ctx.world, other.world)
    ensures After(ctx, k) == After(other, k)
  {
    hide AlchemyRecords.Resolution, AlchemyRecords.Relisted;
    if k > 0 {
      AfterIgnoresListingOrder(ctx, other, k - 1);
      var before := After(ctx, k - 1);
      if before.Going? && ctx.roll(k - 1).Success? {
        AlchemyRecords.ResolutionIgnoresListingOrder(ctx.world, other.world, before.local, ctx.roll(k - 1).potion);
      }
    }
  }

  // ----- the server's mirror of a character -----------------------------------------------------------------

  datatype Mirror = Mirror(inventory: seq<Item>, stats: Stats, revision: u64)

  /** What handleAlchemyRequest leaves in memory after a commit. The new inventory is installed first; the resulting
      statistics are a copy of the whole player taken before, so installing them puts the old inventory back. */
  function Installed(ctx: Context, o: Outcome): Mirror {
    if o.stats.Some? then Mirror(ctx.inventory, o.stats.value, o.revision) else Mirror(o.inventory, ctx.stats, o.revision)
  }

  /** A batch that can be told apart from the inventory it started from: identities are unique, no potion is of
      the kind of a chosen ingredient, and reconciling changes nothing. */
  ghost predicate Distinguishable(q: Request, ctx: Context) {
    && Brewing(q, ctx).Brewed? && UniqueIdentities(ctx.inventory)
    && Apart(ctx.inventory, q.ingredients, Made(Outcomes(Brewing(q, ctx).attempts)))
    && ctx.reconcile(Brewing(q, ctx).inventory) == Brewing(q, ctx).inventory
  }

  /** Every proposal takes something from the inventory. */
  lemma ProposalChangesInventory(q: Request, hash: Bytes, ctx: Context, encode: Result -> Bytes)
    requires ValidRules(ctx.rules) && ctx.stats.base >= 0.0
    requires Decide(q, hash, ctx, encode).Proposed? && Distinguishable(q, ctx)
    ensures Decide(q, hash, ctx, encode).outcome.inventory != ctx.inventory
  {
    hide Decide, Brewing, ValidRequest, Lookup, Apart, UniqueIdentities;
    ProposedMeans(q, hash, ctx, encode);
    ValidRequestIsStocked(q, hash, ctx);
    BrewingLowersChosen(q, hash, ctx, Brewing(q, ctx));
    assert q.ingredients[0] in q.ingredients;
  }

  /** So the mirror holds the committed inventory exactly when the statistics have not changed. */
  lemma MirrorIsStale(q: Request, hash: Bytes, ctx: Context, encode: Result -> Bytes)
    requires ValidRules(ctx.rules) && ctx.stats.base >= 0.0
    requires Decide(q, hash, ctx, encode).Proposed? && Distinguishable(q, ctx)
    ensures var o := Decide(q, hash, ctx, encode).outcome;
            Installed(ctx, o).inventory == o.inventory <==> SkillAfter(ctx.rules, ctx.stats, Successes(o.result.attempts)) == Some(ctx.stats)
  {
    hide Distinguishable, ValidationError, Brewing;
    ProposalChangesInventory(q, hash, ctx, encode);
  }

  predicate Improved(s: Stats, t: Stats) { t.base > s.base || (t.base == s.base && t.progress > s.progress) }

  /** A use of a skill below 100 that is worth something always changes the statistics. */
  lemma {:induction false} UseImproves(r: SkillRules, s: Stats, uses: nat)
    requires ValidRules(r) && 0.0 <= s.base < 100.0 && r.record.Some? && r.record.value.1 > 0.0
    requires uses > 0 && SkillAfter(r, s, uses).Some?
    ensures Improved(s, SkillAfter(r, s, uses).value)
  {
    hide SkillUsed, Factor, LevelMult;
    if uses > 1 { UseImproves(r, s, uses - 1); }
    OneUseImproves(r, SkillAfter(r, s, uses - 1).value);
  }

  lemma OneUseImproves(r: SkillRules, s: Stats)
    requires ValidRules(r) && 0.0 <= s.base && r.record.Some? && r.record.value.1 > 0.0 && SkillUsed(r, s).Some?
    ensures if s.base < 100.0 then Improved(s, SkillUsed(r, s).value) else SkillUsed(r, s).value == s
  {
    hide LevelMult, SkillInClass;
    if s.base < 100.0 { GainIsPositive(r.record.value.1, s.base + 1.0, Factor(r).value); }
  }

  lemma GainIsPositive(value: real, level: real, factor: real)
    requires value > 0.0 && level > 0.0 && factor > 0.0
    ensures Times(level, factor) > 0.0 && value / Times(level, factor) > 0.0
  {
  }

  lemma {:induction false} MasterStays(r: SkillRules, s: Stats, uses: nat)
    requires ValidRules(r) && s.base >= 100.0 && r.record.Some?
    ensures SkillAfter(r, s, uses) == Some(s)
  {
    if uses > 0 { MasterStays(r, s, uses - 1); }
  }

  /** When a use of the skill is worth something, the mirror is right exactly when there was no success, or the skill
      was at 100 already. Otherwise it keeps the inventory from before the request. */
  lemma MirrorIsRight(q: Request, hash: Bytes, ctx: Context, encode: Result -> Bytes)
    requires ValidRules(ctx.rules) && ctx.stats.base >= 0.0
    requires ctx.rules.record.Some? ==> ctx.rules.record.value.1 > 0.0
    requires Decide(q, hash, ctx, encode).Proposed? && Distinguishable(q, ctx)
    ensures var o := Decide(q, hash, ctx, encode).outcome;
            && (Installed(ctx, o).inventory == o.inventory <==> Successes(Brewing(q, ctx).attempts) == 0 || ctx.stats.base >= 100.0)
            && (Installed(ctx, o).inventory != o.inventory ==> Installed(ctx, o).inventory == ctx.inventory)
  {
    hide Distinguishable, ValidationError, Brewing;
    ProposedMeans(q, hash, ctx, encode);
    MirrorIsStale(q, hash, ctx, encode);
    var uses := Successes(Brewing(q, ctx).attempts);
    if uses > 0 {
      UsesNeedRecord(ctx.rules, ctx.stats, uses);
      if ctx.stats.base >= 100.0 { MasterStays(ctx.rules, ctx.stats, uses); } else { UseImproves(ctx.rules, ctx.stats, uses); }
    }
  }

  lemma {:induction false} UsesNeedRecord(r: SkillRules, s: Stats, uses: nat)
    requires ValidRules(r) && s.base >= 0.0 && uses > 0 && SkillAfter(r, s, uses).Some?
    ensures r.record.Some?
  {
  }

  // ----- examples -------------------------------------------------------------------------------------------

  function ExampleItems(): seq<Item> {
    [Item(1, [1], 5, -1, -1.0, []), Item(2, [2], 5, -1, -1.0, []), Item(3, [3], 1, -1, -1.0, [])]
  }

  /** Two ingredients and a mortar, at skill 30; every attempt succeeds. */
  ghost function ExampleContext(): (ctx: Context)
    ensures ValidRules(ctx.rules)
  {
    var potion := AlchemyRecords.Potion(0, [1], [], [], [], 1.0, 1, 0, []);
    var content := Content((id: Bytes) => id != [3], (id: Bytes) => if id == [3] then Some(MORTAR_PESTLE) else None,
                           (id: Bytes) => true, (p: AlchemyRecords.Potion) => true);
    var world := AlchemyRecords.World([], (b: Bytes) => None, (p: AlchemyRecords.Potion) => [7], (b: Bytes) => None, (n: nat) => [9]);
    var rules := SkillRules(Some((0, 2.0)), [], 1, 0, (s: Setting) => Some(1.0));
    Context(1, 1, 4, ExampleItems(), Stats(30.0, 0.5, 0.0, 0.0, 1, 0.0, []), Admitted, content, ReadyToBrew,
            (n: nat) => Success(potion), world, 5, rules, (s: seq<Item>) => s, 0)
  }

  function ExampleRequest(id: Bytes): Request { Request(PROTOCOL_VERSION, id, 4, [1], 1, [1, 2], [3]) }

  lemma ExampleIsValid(id: Bytes)
    requires 1 <= |id| <= MAX_REQUEST_ID
    ensures ValidRequest(ExampleRequest(id), [1], ExampleContext())
  {
    var ctx := ExampleContext();
    var items := ctx.inventory;
    assert Lookup(items, 1) == Some(items[0]);
    assert items[1..][0] == items[1] && items[1..][1..][0] == items[2];
    assert Lookup(items, 2) == Lookup(items[1..], 2) == Some(items[1]);
    assert Lookup(items, 3) == Lookup(items[1..], 3) == Lookup(items[1..][1..], 3) == Some(items[2]);
    assert SoundApparatus(ctx, 3) && TypeOf(ctx, 3) == MORTAR_PESTLE;
    assert 3 in ExampleRequest(id).apparatus;
  }

  lemma ExampleBrews(id: Bytes)
    ensures var b := Brewing(ExampleRequest(id), ExampleContext());
            b.Brewed? && b.attempts == [Attempt(true, [9], false)] && Successes(b.attempts) == 1
    ensures Distinguishable(ExampleRequest(id), ExampleContext())
  {
    hide Attempts;
    var ctx := ExampleContext();
    assert AlchemyRecords.InIdOrder(ctx.world) == [];
    assert After(ctx, 0) == Going([], AlchemyRecords.NOTHING_YET);
    assert After(ctx, 1).Going? && After(ctx, 1).attempts == [Attempt(true, [9], false)];
    assert Outcomes([Attempt(true, [9], false)]) == [Some([9])];
    assert Made([Some([9])]) == [[9]];
    var items := ctx.inventory;
    assert items[1..][0] == items[1];
    assert Lookup(items, 2) == Lookup(items[1..], 2) == Some(items[1]);
  }

  lemma ExampleIsProposed(id: Bytes, encode: Result -> Bytes)
    requires 1 <= |id| <= MAX_REQUEST_ID
    ensures Decide(ExampleRequest(id), [1], ExampleContext(), encode).Proposed?
  {
    hide Brewing, ValidationError, ValidRequest;
    ExampleIsValid(id);
    NoErrorIsValid(ExampleRequest(id), [1], ExampleContext());
    ExampleBrews(id);
  }

  /** A request after which the mirror is stale. */
  lemma StaleMirrorExample(encode: Result -> Bytes) returns (q: Request, hash: Bytes, ctx: Context)
    ensures ValidRules(ctx.rules) && ctx.stats.base >= 0.0 && Decide(q, hash, ctx, encode).Proposed?
    ensures var o := Decide(q, hash, ctx, encode).outcome;
            Installed(ctx, o).inventory == ctx.inventory != o.inventory
  {
    hide Brewing, ValidationError, Decide, Distinguishable;
    q, hash, ctx := ExampleRequest([1]), [1], ExampleContext();
    ExampleBrews([1]);
    ExampleIsProposed([1], encode);
    MirrorIsRight(q, hash, ctx, encode);
  }

  /** With a row under [1], a proposal whose id is [1, 0, 1] enters itself until the stack is used up, however deep that is. */
  lemma EndlessExample(encode: Result -> Bytes) returns (db: Db, q: Request, hash: Bytes, ctx: Context)
    requires forall r :: encode(r) != []
    ensures ValidRules(ctx.rules) && ctx.stats.base >= 0.0 && KeyOf(q, ctx) !in db.journal
    ensures Undisturbed(db, q, hash, ctx, encode) == (db, StackOverflow)
  {
    hide Brewing, ValidationError, Decide, CommitRequest;
    q, hash, ctx := ExampleRequest([1, 0, 1]), [1], ExampleContext();
    db := Db(map[1 := Character(1, 4, ctx.inventory, ctx.stats)], map[], map[Key(1, 1, [1]) := Entry([2], Accepted, [1])]);
    ExampleIsProposed([1, 0, 1], encode);
    assert Cut([1, 0, 1]) == [1] by { assert Cut([0, 1]) == []; assert [1, 0, 1][1..] == [0, 1]; }
    EndlessExactly(db, q, hash, ctx, encode);
    UndisturbedCases(db, q, hash, ctx, encode);
  }
}
