/** What an alchemy request must satisfy before anything is brewed, and the skill progress of a success. */
module AlchemyRules {
  import opened Wrappers
  import opened ByteBuffers
  import opened Sorting
  import opened AlchemyInventory
  import opened CraftStore
  import AlchemyRecords

  const PROTOCOL_VERSION: u16 := 1
  const MAX_ATTEMPTS := 100
  const MAX_INGREDIENTS := 4
  const MAX_APPARATUS := 4
  const MAX_NAME := 64
  const MAX_REQUEST_ID := 128
  const MORTAR_PESTLE := 0
  const APPARATUS_TYPES := 4

  datatype Error = NoError | InvalidRequest | RequestPending | DuplicateRequestConflict | StaleInventoryRevision
                 | IngredientNotFound | IngredientNotOwned | InvalidIngredient | DuplicateSourceInstance
                 | ApparatusNotFound | InvalidApparatus | ContentMismatch | MechanicsValidationFailed
                 | ServerError | UnsupportedProtocol | RateLimited | QuotaExceeded

  datatype Request = Request(
    protocolVersion: u16, requestId: Bytes, inventoryRevision: u64, potionName: Bytes, count: u32,
    ingredients: seq<u32>, apparatus: seq<u32>)

  datatype Admission = Admitted | AdmissionRateLimited | AdmissionFailed

  /** Outcome of getReadyStatus, and of one call of createSingle. */
  datatype Ready = ReadyThrows | NoEffects | ReadyToBrew | NotReady
  datatype Roll = RollThrows | Failure | Success(potion: AlchemyRecords.Potion)

  /** Records of the content store by reference id; an apparatus has a type. */
  datatype Content = Content(
    isIngredient: Bytes -> bool, apparatusType: Bytes -> Option<int>, contentAllowed: Bytes -> bool,
    potionAllowed: AlchemyRecords.Potion -> bool)

  datatype Context = Context(
    account: i64, character: i64, inventoryRevision: u64, inventory: seq<Item>, stats: Stats,
    admission: Admission, content: Content, ready: Ready, roll: nat -> Roll, world: AlchemyRecords.World,
    maximumNewRecords: nat, rules: SkillRules, reconcile: seq<Item> -> seq<Item>, commitSequence: u64)

  // ----- validation, in the order in which errors are found -------------------------------------------

  function RequestError(q: Request, hash: Bytes, ctx: Context): Error {
    if q.protocolVersion != PROTOCOL_VERSION then UnsupportedProtocol
    else if q.requestId == [] || |q.requestId| > MAX_REQUEST_ID || hash == [] then InvalidRequest
    else if ctx.admission != Admitted then (if ctx.admission.AdmissionRateLimited? then RateLimited else ServerError)
    else if q.inventoryRevision != ctx.inventoryRevision then Error.StaleInventoryRevision
    else if q.count == 0 || q.count > MAX_ATTEMPTS then InvalidRequest
    else if q.potionName == [] || |q.potionName| > MAX_NAME then InvalidRequest
    else if |q.ingredients| < 2 || |q.ingredients| > MAX_INGREDIENTS then InvalidRequest
    else if |q.apparatus| > MAX_APPARATUS then InvalidRequest
    else NoError
  }

  function IngredientError(ctx: Context, id: u32): Error {
    var stack := Lookup(ctx.inventory, id);
    if stack.None? then IngredientNotFound
    else if stack.value.count <= 0 then IngredientNotOwned
    else if stack.value.refId == [] then InvalidIngredient
    else if !ctx.content.isIngredient(stack.value.refId) then UnknownError(ctx, stack.value.refId, InvalidIngredient)
    else NoError
  }

  /** A known record of another kind is the given error, an unknown id a content mismatch. */
  function UnknownError(ctx: Context, refId: Bytes, known: Error): Error {
    if ctx.content.contentAllowed(refId) then known else ContentMismatch
  }

  function ApparatusError(ctx: Context, id: u32, taken: set<int>): Error {
    var stack := Lookup(ctx.inventory, id);
    if stack.None? || stack.value.count <= 0 then ApparatusNotFound
    else
      var t := ctx.content.apparatusType(stack.value.refId);
      if t.None? then UnknownError(ctx, stack.value.refId, InvalidApparatus)
      else if t.value < 0 || t.value >= APPARATUS_TYPES || t.value in taken then InvalidApparatus
      else NoError
  }

  function FirstIngredientError(ctx: Context, ids: seq<u32>): Error {
    if ids == [] then NoError
    else if IngredientError(ctx, ids[0]) != NoError then IngredientError(ctx, ids[0])
    else FirstIngredientError(ctx, ids[1..])
  }

  /** Apparatus are taken in order, one per type; in the end there must be a mortar. */
  function FirstApparatusError(ctx: Context, ids: seq<u32>, taken: set<int>): Error
    decreases |ids|
  {
    if ids == [] then (if MORTAR_PESTLE in taken then NoError else InvalidApparatus)
    else if ApparatusError(ctx, ids[0], taken) != NoError then ApparatusError(ctx, ids[0], taken)
    else FirstApparatusError(ctx, ids[1..], taken + {TypeOf(ctx, ids[0])})
  }

  function ValidationError(q: Request, hash: Bytes, ctx: Context): Error {
    if RequestError(q, hash, ctx) != NoError then RequestError(q, hash, ctx)
    else if !NoRepeats(q.ingredients + q.apparatus) then DuplicateSourceInstance
    else if FirstIngredientError(ctx, q.ingredients) != NoError then FirstIngredientError(ctx, q.ingredients)
    else if FirstApparatusError(ctx, q.apparatus, {}) != NoError then FirstApparatusError(ctx, q.apparatus, {})
    else if ctx.ready.ReadyThrows? then MechanicsValidationFailed
    else if ctx.ready.NotReady? then InvalidRequest
    else if ctx.ready.ReadyToBrew? && !(forall id <- q.ingredients :: EnoughFor(ctx, id, q.count)) then InvalidRequest
    else NoError
  }

  predicate EnoughFor(ctx: Context, id: u32, count: int) {
    Lookup(ctx.inventory, id).Some? && count <= Lookup(ctx.inventory, id).value.count
  }

  /** The capacity of the smallest chosen stack. */
  function MostAttempts(ctx: Context, ids: seq<u32>): int
    requires ids != [] && forall id <- ids :: Lookup(ctx.inventory, id).Some?
  {
    var count := Lookup(ctx.inventory, ids[0]).value.count;
    if |ids| == 1 then count
    else var rest := MostAttempts(ctx, ids[1..]); if count < rest then count else rest
  }

  lemma {:induction false} MostAttemptsIsLeast(ctx: Context, ids: seq<u32>)
    requires ids != [] && forall id <- ids :: Lookup(ctx.inventory, id).Some?
    ensures forall id <- ids :: MostAttempts(ctx, ids) <= Lookup(ctx.inventory, id).value.count
    ensures exists id <- ids :: MostAttempts(ctx, ids) == Lookup(ctx.inventory, id).value.count
  {
    assert ids[0] in ids;
    if |ids| > 1 {
      MostAttemptsIsLeast(ctx, ids[1..]);
    }
  }

  // ----- what a valid request is, independently of the order of the checks -------------------------------

  predicate SoundIngredient(ctx: Context, id: u32) {
    && Lookup(ctx.inventory, id).Some?
    && var stack := Lookup(ctx.inventory, id).value;
       stack.count > 0 && stack.refId != [] && ctx.content.isIngredient(stack.refId)
  }

  predicate SoundApparatus(ctx: Context, id: u32) {
    && Lookup(ctx.inventory, id).Some?
    && var stack := Lookup(ctx.inventory, id).value;
       stack.count > 0 && ctx.content.apparatusType(stack.refId).Some?
       && 0 <= ctx.content.apparatusType(stack.refId).value < APPARATUS_TYPES
  }

  function TypeOf(ctx: Context, id: u32): int
    requires SoundApparatus(ctx, id)
  {
    ctx.content.apparatusType(Lookup(ctx.inventory, id).value.refId).value
  }

  /** Distinct owned ingredients, one apparatus per type among which a mortar, and something to brew. */
  predicate ValidRequest(q: Request, hash: Bytes, ctx: Context) {
    && RequestError(q, hash, ctx) == NoError
    && NoRepeats(q.ingredients + q.apparatus)
    && (forall id <- q.ingredients :: SoundIngredient(ctx, id))
    && (forall id <- q.apparatus :: SoundApparatus(ctx, id))
    && OnePerType(ctx, q.apparatus)
    && (exists id <- q.apparatus :: TypeOf(ctx, id) == MORTAR_PESTLE)
    && (ctx.ready.NoEffects?
        || (ctx.ready.ReadyToBrew? && forall id <- q.ingredients :: EnoughFor(ctx, id, q.count)))
  }

  /** An effectless setup is tried once, whatever the count. */
  function AttemptCount(q: Request, ctx: Context): nat {
    if ctx.ready.NoEffects? then 1 else q.count
  }

  /** What the inventory arithmetic relies on. */
  lemma ValidRequestIsStocked(q: Request, hash: Bytes, ctx: Context)
    requires ValidRequest(q, hash, ctx)
    ensures NoRepeats(q.ingredients) && 2 <= |q.ingredients| <= MAX_INGREDIENTS
    ensures 1 <= AttemptCount(q, ctx) <= MAX_ATTEMPTS
    ensures Stocked(ctx.inventory, q.ingredients, 1) && Stocked(ctx.inventory, q.ingredients, AttemptCount(q, ctx))
  {
    var all := q.ingredients + q.apparatus;
    assert forall i :: 0 <= i < |q.ingredients| ==> all[i] == q.ingredients[i];
    forall id <- q.ingredients
      ensures SoundIngredient(ctx, id)
    {}
  }

  method HasDuplicate(ids: seq<u32>) returns (r: bool)
    ensures r <==> !NoRepeats(ids)
  {
    var seen: set<u32> := {};
    for i := 0 to |ids|
      invariant forall x :: x in seen <==> x in ids[..i]
      invariant NoRepeats(ids[..i])
    {
      assert ids[..i + 1] == ids[..i] + [ids[i]];
      if ids[i] in seen {
        var k :| 0 <= k < i && ids[..i][k] == ids[i];
        return true;
      }
      seen := seen + {ids[i]};
    }
    assert ids[..|ids|] == ids;
    return false;
  }

  method CheckIngredients(q: Request, ctx: Context) returns (e: Error)
    ensures e == FirstIngredientError(ctx, q.ingredients)
  {
    for i := 0 to |q.ingredients|
      invariant FirstIngredientError(ctx, q.ingredients) == FirstIngredientError(ctx, q.ingredients[i..])
    {
      e := IngredientError(ctx, q.ingredients[i]);
      if e != NoError { return; }
    }
    return NoError;
  }

  method CheckApparatus(q: Request, ctx: Context) returns (e: Error)
    ensures e == FirstApparatusError(ctx, q.apparatus, {})
  {
    var taken: set<int> := {};
    for i := 0 to |q.apparatus|
      invariant FirstApparatusError(ctx, q.apparatus, {}) == FirstApparatusError(ctx, q.apparatus[i..], taken)
    {
      e := ApparatusError(ctx, q.apparatus[i], taken);
      if e != NoError { return; }
      taken := taken + {TypeOf(ctx, q.apparatus[i])};
    }
    return if MORTAR_PESTLE in taken then NoError else InvalidApparatus;
  }

  /** The whole validation: the error of the first check that fails. */
  method Validate(q: Request, hash: Bytes, ctx: Context) returns (e: Error)
    ensures e == ValidationError(q, hash, ctx)
    ensures e == NoError <==> ValidRequest(q, hash, ctx)
  {
    hide ValidRequest;
    NoErrorIsValid(q, hash, ctx);
    e := RequestError(q, hash, ctx);
    if e != NoError { return; }
    var duplicate := HasDuplicate(q.ingredients + q.apparatus);
    if duplicate { return DuplicateSourceInstance; }
    e := CheckIngredients(q, ctx);
    if e != NoError { return; }
    e := CheckApparatus(q, ctx);
    if e != NoError { return; }
    if ctx.ready.ReadyThrows? { return MechanicsValidationFailed; }
    if ctx.ready.NotReady? { return InvalidRequest; }
    IngredientsSound(ctx, q.ingredients);
    MostAttemptsIsLeast(ctx, q.ingredients);
    if ctx.ready.ReadyToBrew? && q.count > MostAttempts(ctx, q.ingredients) { return InvalidRequest; }
  }

  lemma {:induction false} IngredientsSound(ctx: Context, ids: seq<u32>)
    ensures FirstIngredientError(ctx, ids) == NoError <==> forall id <- ids :: SoundIngredient(ctx, id)
  {
    if ids != [] {
      IngredientsSound(ctx, ids[1..]);
      assert ids == [ids[0]] + ids[1..] && ids[0] in ids;
      assert SoundIngredient(ctx, ids[0]) <==> IngredientError(ctx, ids[0]) == NoError;
    }
  }

  predicate OnePerType(ctx: Context, ids: seq<u32>)
    requires forall id <- ids :: SoundApparatus(ctx, id)
  {
    forall i, j :: 0 <= i < j < |ids| ==> TypeOf(ctx, ids[i]) != TypeOf(ctx, ids[j])
  }

  lemma FitsIsSound(ctx: Context, id: u32, taken: set<int>)
    ensures ApparatusError(ctx, id, taken) == NoError <==> SoundApparatus(ctx, id) && TypeOf(ctx, id) !in taken
  {
  }

  lemma OnePerTypeOfNone(ctx: Context)
    ensures OnePerType(ctx, [])
  {
  }

  lemma OnePerTypeFrom(ctx: Context, ids: seq<u32>)
    requires ids != [] && forall id <- ids :: SoundApparatus(ctx, id)
    ensures forall id <- ids[1..] :: SoundApparatus(ctx, id)
    ensures OnePerType(ctx, ids) <==>
              OnePerType(ctx, ids[1..]) && forall id <- ids[1..] :: TypeOf(ctx, id) != TypeOf(ctx, ids[0])
  {
    hide SoundApparatus, TypeOf;
    assert forall k :: 0 <= k < |ids[1..]| ==> ids[1..][k] == ids[k + 1];
  }

  lemma {:induction false} ApparatusSound(ctx: Context, ids: seq<u32>, taken: set<int>)
    ensures FirstApparatusError(ctx, ids, taken) == NoError <==>
              && (forall id <- ids :: SoundApparatus(ctx, id) && TypeOf(ctx, id) !in taken)
              && OnePerType(ctx, ids)
              && (MORTAR_PESTLE in taken || exists id <- ids :: TypeOf(ctx, id) == MORTAR_PESTLE)
    decreases |ids|
  {
    hide TypeOf, OnePerType, SoundApparatus, ApparatusError;
    if ids == [] {
      OnePerTypeOfNone(ctx);
    } else {
      var first, rest := ids[0], ids[1..];
      assert ids == [first] + rest && first in ids;
      FitsIsSound(ctx, first, taken);
      if ApparatusError(ctx, first, taken) == NoError {
        ApparatusSound(ctx, rest, taken + {TypeOf(ctx, first)});
        if forall id <- ids :: SoundApparatus(ctx, id) { OnePerTypeFrom(ctx, ids); }
      }
    }
  }

  /** The checks find no error exactly for a valid request. */
  lemma NoErrorIsValid(q: Request, hash: Bytes, ctx: Context)
    ensures ValidationError(q, hash, ctx) == NoError <==> ValidRequest(q, hash, ctx)
  {
    hide RequestError, FirstIngredientError, FirstApparatusError, SoundIngredient, SoundApparatus;
    IngredientsSound(ctx, q.ingredients);
    ApparatusSound(ctx, q.apparatus, {});
  }

  // ----- skill progress ---------------------------------------------------------------------------------

  datatype Setting = MiscSkillBonus | MajorSkillBonus | MinorSkillBonus | SpecialSkillBonus | LevelUpMajorMult | LevelUpMinorMult

  /** The alchemy skill record (its specialization and use value), the class, and the game settings. */
  datatype SkillRules = SkillRules(
    record: Option<(int, real)>, classSkills: seq<(int, int)>, classSpecialization: int, alchemyIndex: int,
    gmst: Setting -> Option<real>)

  /** The bonuses divide, so they are taken to be positive; a use never takes progress away. */
  ghost predicate ValidRules(r: SkillRules) {
    && (forall s: Setting :: r.gmst(s).Some? ==> r.gmst(s).value > 0.0)
    && (r.record.Some? ==> r.record.value.1 >= 0.0)
  }

  /** Minor skills are the first of each pair, major skills the second. */
  predicate SkillInClass(classSkills: seq<(int, int)>, major: bool, index: int) {
    exists p <- classSkills :: (if major then p.1 else p.0) == index
  }

  function Trunc(r: real): int { if r < 0.0 then -((-r).Floor) else r.Floor }

  function LevelMult(r: SkillRules): Option<int> {
    if SkillInClass(r.classSkills, true, r.alchemyIndex)
    then match r.gmst(LevelUpMajorMult) case None => None case Some(v) => Some(Trunc(v))
    else if SkillInClass(r.classSkills, false, r.alchemyIndex)
    then match r.gmst(LevelUpMinorMult) case None => None case Some(v) => Some(Trunc(v))
    else Some(0)
  }

  function Times(a: real, b: real): (c: real)
    ensures a > 0.0 && b > 0.0 ==> c > 0.0
  {
    a * b
  }

  function Factor(r: SkillRules): (f: Option<real>)
    requires ValidRules(r)
    ensures f.Some? ==> f.value > 0.0
  {
    if r.record.None? || r.gmst(MiscSkillBonus).None? then None
    else
      var bonus := if SkillInClass(r.classSkills, true, r.alchemyIndex) then r.gmst(MajorSkillBonus)
                   else if SkillInClass(r.classSkills, false, r.alchemyIndex) then r.gmst(MinorSkillBonus)
                   else r.gmst(MiscSkillBonus);
      if bonus.None? then None
      else if r.record.value.0 != r.classSpecialization then bonus
      else if r.gmst(SpecialSkillBonus).None? then None
      else Some(Times(bonus.value, r.gmst(SpecialSkillBonus).value))
  }

  /** applyAlchemySkillUse; None when it throws. */
  function SkillUsed(r: SkillRules, s: Stats): Option<Stats>
    requires ValidRules(r) && s.base >= 0.0
  {
    if r.record.None? then None
    else if s.base >= 100.0 then Some(s)
    else if Factor(r).None? || LevelMult(r).None? then None
    else
      var progress := s.progress + r.record.value.1 / Times(s.base + 1.0, Factor(r).value);
      if progress >= 1.0
      then Some(s.(base := s.base + 1.0, progress := 0.0, levelProgress := s.levelProgress + LevelMult(r).value as real))
      else Some(s.(progress := progress))
  }

  /** What a use of the skill is divided by, beside the next level: the bonus of a major, a minor or another skill, times the
    bonus of the specialization when the class has it. The setting for other skills has to be there in any case. */
  ghost predicate Divides(r: SkillRules, bonus: real) {
    var major, minor := exists p <- r.classSkills :: p.1 == r.alchemyIndex, exists p <- r.classSkills :: p.0 == r.alchemyIndex;
    && r.record.Some? && r.gmst(MiscSkillBonus).Some?
    && var own := r.gmst(if major then MajorSkillBonus else if minor then MinorSkillBonus else MiscSkillBonus);
       && own.Some?
       && if r.record.value.0 == r.classSpecialization
          then r.gmst(SpecialSkillBonus).Some? && bonus == own.value * r.gmst(SpecialSkillBonus).value
          else bonus == own.value
  }

  /** How much a raise counts towards the next level of the character. */
  ghost predicate Levels(r: SkillRules, mult: int) {
    var major, minor := exists p <- r.classSkills :: p.1 == r.alchemyIndex, exists p <- r.classSkills :: p.0 == r.alchemyIndex;
    if major then r.gmst(LevelUpMajorMult).Some? && mult == Trunc(r.gmst(LevelUpMajorMult).value)
    else if minor then r.gmst(LevelUpMinorMult).Some? && mult == Trunc(r.gmst(LevelUpMinorMult).value)
    else mult == 0
  }

  lemma TimesIsProduct(a: real, b: real)
    ensures Times(a, b) == a * b
  {
  }

  lemma DividesIsFactor(r: SkillRules, bonus: real)
    requires ValidRules(r)
    ensures Divides(r, bonus) <==> Factor(r) == Some(bonus)
  {
    var major, minor := exists p <- r.classSkills :: p.1 == r.alchemyIndex, exists p <- r.classSkills :: p.0 == r.alchemyIndex;
    assert SkillInClass(r.classSkills, true, r.alchemyIndex) == major && SkillInClass(r.classSkills, false, r.alchemyIndex) == minor;
    hide Times, SkillInClass;
    var own := r.gmst(if major then MajorSkillBonus else if minor then MinorSkillBonus else MiscSkillBonus);
    if own.Some? && r.gmst(SpecialSkillBonus).Some? { TimesIsProduct(own.value, r.gmst(SpecialSkillBonus).value); }
  }

  lemma LevelsIsMult(r: SkillRules, mult: int)
    ensures Levels(r, mult) <==> LevelMult(r) == Some(mult)
  {
  }

  /** One use below the cap, from its gain alone: what the use is worth, spread over the next level and the bonus. A full
    point raises the skill by one, starts the progress anew and counts towards the level; anything less is kept. */
  lemma UseMeaning(r: SkillRules, s: Stats, bonus: real, mult: int, gain: real)
    requires ValidRules(r) && 0.0 <= s.base < 100.0 && Divides(r, bonus) && Levels(r, mult)
    requires gain * ((s.base + 1.0) * bonus) == r.record.value.1
    ensures SkillUsed(r, s) == Some(
              if s.progress + gain >= 1.0
              then s.(base := s.base + 1.0, progress := 0.0, levelProgress := s.levelProgress + mult as real)
              else s.(progress := s.progress + gain))
  {
    DividesIsFactor(r, bonus);
    LevelsIsMult(r, mult);
    hide Divides, Levels, Factor, LevelMult, Times;
    TimesIsProduct(s.base + 1.0, bonus);
    Quotients(gain, Times(s.base + 1.0, bonus), r.record.value.1);
  }

  lemma Quotients(q: real, d: real, v: real)
    requires d > 0.0 && q * d == v
    ensures v / d == q
  {
  }

  /** A use throws exactly when the skill record is missing, or below the cap one of the settings. */
  lemma UseThrows(r: SkillRules, s: Stats)
    requires ValidRules(r) && s.base >= 0.0
    ensures SkillUsed(r, s).None? <==>
              r.record.None? || (s.base < 100.0 && !((exists bonus :: Divides(r, bonus)) && exists mult :: Levels(r, mult)))
  {
    if Factor(r).Some? { DividesIsFactor(r, Factor(r).value); }
    if LevelMult(r).Some? { LevelsIsMult(r, LevelMult(r).value); }
    if bonus :| Divides(r, bonus) { DividesIsFactor(r, bonus); }
    if mult :| Levels(r, mult) { LevelsIsMult(r, mult); }
  }

  /** One use per success; None when one of them throws. */
  function SkillAfter(r: SkillRules, s: Stats, uses: nat): (after: Option<Stats>)
    requires ValidRules(r) && s.base >= 0.0
    ensures after.Some? ==> after.value.base >= 0.0
  {
    if uses == 0 then Some(s)
    else match SkillAfter(r, s, uses - 1) case None => None case Some(t) => SkillUsed(r, t)
  }

  lemma {:induction false} ThrownForGood(r: SkillRules, s: Stats, m: nat, n: nat)
    requires ValidRules(r) && s.base >= 0.0 && m <= n && SkillAfter(r, s, m).None?
    ensures SkillAfter(r, s, n).None?
  {
    if m < n { ThrownForGood(r, s, m, n - 1); }
  }

  /** A number of uses raised the skill `raises` times. */
  predicate Raised(r: SkillRules, before: Stats, after: Stats, raises: nat) {
    && after.base == before.base + raises as real
    && (raises > 0 ==> after.base < 101.0 && LevelMult(r).Some?
                       && after.levelProgress == before.levelProgress + raises as real * LevelMult(r).value as real)
    && (raises == 0 ==> after.levelProgress == before.levelProgress)
    && after == before.(base := after.base, progress := after.progress, levelProgress := after.levelProgress)
    && 0.0 <= after.progress < 1.0
  }

  /** Each use raises the skill at most once; level progress grows by the multiplier for each raise; the
      skill never goes past the cap by a whole point; and progress stays a proper fraction. */
  method UseSkill(r: SkillRules, s: Stats, uses: nat) returns (after: Option<Stats>, ghost raises: nat)
    requires ValidRules(r) && s.base >= 0.0
    ensures after == SkillAfter(r, s, uses)
    ensures after.Some? && 0.0 <= s.progress < 1.0 ==> Raised(r, s, after.value, raises) && raises <= uses
    ensures after.Some? && s.base >= 100.0 ==> after.value == s
    ensures after.Some? && s.base < 100.0 ==> after.value.base < 101.0
    ensures uses > 0 && r.record.None? ==> after.None?
    ensures uses == 0 ==> after == Some(s)
  {
    var now := s;
    raises := 0;
    for i := 0 to uses
      invariant SkillAfter(r, s, i) == Some(now)
      invariant now.base >= 0.0 && raises <= i && (i == 0 ==> now == s) && (i > 0 ==> r.record.Some?)
      invariant 0.0 <= s.progress < 1.0 ==> Raised(r, s, now, raises)
      invariant if s.base >= 100.0 then now == s else now.base < 101.0
    {
      var next := SkillUsed(r, now);
      if next.None? {
        ThrownForGood(r, s, i + 1, uses);
        return None, raises;
      }
      SkillUsedStep(r, s, now, next.value, raises);
      if next.value.base != now.base { raises := raises + 1; }
      now := next.value;
    }
    return Some(now), raises;
  }

  lemma SkillUsedStep(r: SkillRules, s: Stats, now: Stats, next: Stats, raises: nat)
    requires ValidRules(r) && now.base >= 0.0 && SkillUsed(r, now) == Some(next)
    ensures next.base == now.base || (next.base == now.base + 1.0 && now.base < 100.0)
    ensures 0.0 <= s.progress < 1.0 && Raised(r, s, now, raises) ==>
              Raised(r, s, next, if next.base == now.base then raises else raises + 1)
  {
    if now.base < 100.0 {
      Quotient(r.record.value.1, Times(now.base + 1.0, Factor(r).value));
      if LevelMult(r).Some? { OneMore(raises, LevelMult(r).value as real); }
    }
  }

  lemma Quotient(a: real, b: real)
    requires a >= 0.0 && b > 0.0
    ensures a / b >= 0.0
  {}

  lemma OneMore(n: nat, m: real)
    ensures (n + 1) as real * m == n as real * m + m
  {
    assert (n + 1) as real == n as real + 1.0;
  }
}
