/** The part of CrimeSemanticService::evaluate that looks at the intent and the witnesses only:
  validation, the perception pass, the reporting pass and the bounty. */
module CrimeJudgement {
  import opened Wrappers
  import opened ByteBuffers
  import opened CrimeTypes
  import opened CrimeStore
  import opened CrimeCodec
  import Sorting

  datatype Query = Query(
    eventId: Text, cellId: Text, observer: Snapshot, target: Snapshot, victim: Option<Identity>,
    path: u8, eventAuthority: u8, observedAtMs: u64, maximumSnapshotAgeMs: u64,
    generations: seq<CellGeneration>)

  datatype AggressionInput = AggressionInput(
    crime: u8, value: i64, victim: bool, baseFight: i32, alarm: i32,
    witnessPosition: Vector, offenderPosition: Vector)

  /** CrimePolicy, together with what is computed elsewhere: the observation service, the float
    comparison with the alarm radius, the addition of the humanoid height and the aggression formula. */
  datatype Policy = Policy(
    theftMultiplier: real, pickpocketBounty: i32, trespassBounty: i32, assaultBounty: i32, murderBounty: i32,
    werewolfBounty: i32,
    observe: Query -> Observation, within: (Vector, Vector) -> bool, raise: Float -> Float,
    aggression: AggressionInput -> Aggression)

  /** The constructor's check. */
  predicate ValidPolicy(p: Policy) {
    && p.theftMultiplier >= 0.0
    && p.pickpocketBounty >= 0 && p.trespassBounty >= 0 && p.assaultBounty >= 0 && p.murderBounty >= 0
    && p.werewolfBounty >= 0
  }

  const ALARM_THRESHOLD := 100

  // ----- validation -------------------------------------------------------------------------

  predicate CanonicalGenerations(gs: seq<CellGeneration>) {
    forall i :: 0 <= i < |gs| ==>
      gs[i].cellId != [] && gs[i].generation != 0 && (i != 0 ==> Sorting.Before(gs[i - 1].cellId, gs[i].cellId))
  }

  predicate ValidIntent(n: Intent, playerGuid: u32) {
    && n.version == CRIME_VERSION
    && n.eventId != [] && |n.eventId| <= MAX_REQUEST_ID && NoNul(n.eventId)
    && n.source != [] && |n.source| <= MAX_SOURCE && NoNul(n.source)
    && n.cellId != [] && |n.cellId| <= MAX_CELL_ID && NoNul(n.cellId)
    && ValidType(n.crime)
    && n.offender.identity.IsValid() && n.offender.identity.kind == PLAYER
    && n.offender.identity.playerGuid == playerGuid && n.offender.position.IsFinite()
    && n.observedAtMs != 0 && n.maximumSnapshotAgeMs != 0
    && |n.collisionGenerations| <= MAX_WITNESSES && CanonicalGenerations(n.collisionGenerations)
    && (n.victim.Some? ==> n.victim.value.IsValid() && n.victim.value != n.offender.identity)
    && (n.victimAware ==> n.victim.Some?)
    && (n.crime in {PICKPOCKET, ASSAULT, MURDER} ==> n.victim.Some?)
    && (if n.crime == THEFT then 0 <= n.value <= MAX_I32 else n.value == 0)
  }

  predicate ValidCandidate(c: Candidate) {
    && c.actor.identity.IsValid()
    && 0 <= c.alarm <= 100 && 0 <= c.fight <= 100
    && c.relationship <= REL_UNKNOWN && c.relationshipAuthority <= MIXED_DELEGATED
  }

  method CanonicalGenerationsLoop(gs: seq<CellGeneration>) returns (ok: bool)
    ensures ok == CanonicalGenerations(gs)
  {
    for i := 0 to |gs|
      invariant CanonicalGenerations(gs[..i])
    {
      if gs[i].cellId == [] || gs[i].generation == 0 || (i != 0 && !Sorting.Before(gs[i - 1].cellId, gs[i].cellId)) {
        return false;
      }
    }
    assert gs[..|gs|] == gs;
    return true;
  }

  // ----- ordering the witnesses ---------------------------------------------------------------

  /** identityKey: the tuple (kind, playerGuid, actorInstanceId) as one number. */
  function IdentityKey(i: Identity): nat {
    (i.kind * 0x1_0000_0000 + i.playerGuid) * 0x1_0000_0000_0000_0000 + i.actorInstanceId
  }

  /** The number orders identities as the tuples are ordered, and tells them apart. */
  lemma IdentityKeyOrder(i: Identity, j: Identity)
    ensures IdentityKey(i) < IdentityKey(j)
            <==> i.kind < j.kind
                 || (i.kind == j.kind && (i.playerGuid < j.playerGuid
                     || (i.playerGuid == j.playerGuid && i.actorInstanceId < j.actorInstanceId)))
    ensures IdentityKey(i) == IdentityKey(j) <==> i == j
  {
  }

  function CandidateKey(c: Candidate): nat { IdentityKey(c.actor.identity) }

  ghost predicate SortedByKey(cs: seq<Candidate>) {
    forall i, j :: 0 <= i < j < |cs| ==> CandidateKey(cs[i]) <= CandidateKey(cs[j])
  }

  ghost predicate Distinct(cs: seq<Candidate>) {
    forall i, j :: 0 <= i < j < |cs| ==> cs[i].actor.identity != cs[j].actor.identity
  }

  predicate ByKey(c: Candidate, d: Candidate) { CandidateKey(c) <= CandidateKey(d) }

  /** std::sort by identity key. */
  function Sort(cs: seq<Candidate>): seq<Candidate> { Sorting.Sort(cs, ByKey) }

  lemma SortSorts(cs: seq<Candidate>)
    ensures SortedByKey(Sort(cs)) && multiset(Sort(cs)) == multiset(cs) && |Sort(cs)| == |cs|
  {
    hide CandidateKey;
    Sorting.SortSorts(cs, ByKey);
  }

  lemma KeyIsIdentity(c: Candidate, d: Candidate)
    ensures CandidateKey(c) == CandidateKey(d) <==> c.actor.identity == d.actor.identity
  {
    IdentityKeyOrder(c.actor.identity, d.actor.identity);
  }

  /** Two sorted lists of distinct identities with the same members are the same list. */
  lemma SortedUnique(a: seq<Candidate>, b: seq<Candidate>)
    requires SortedByKey(a) && SortedByKey(b) && Distinct(a) && multiset(a) == multiset(b)
    ensures a == b
  {
    hide CandidateKey;
    forall x, y | x in a && y in a && ByKey(x, y) && ByKey(y, x)
      ensures x == y
    {
      KeyIsIdentity(x, y);
    }
    Sorting.SortedUnique(a, b, ByKey);
  }

  /** std::adjacent_find on the sorted list. */
  method HasAdjacentDuplicate(cs: seq<Candidate>) returns (found: bool)
    requires SortedByKey(cs)
    ensures found <==> !Distinct(cs)
  {
    if cs == [] { return false; }
    for i := 1 to |cs|
      invariant forall k :: 0 < k < i ==> cs[k - 1].actor.identity != cs[k].actor.identity
    {
      if cs[i - 1].actor.identity == cs[i].actor.identity { return true; }
    }
    forall i, j | 0 <= i < j < |cs|
      ensures cs[i].actor.identity != cs[j].actor.identity
    {
      IdentityKeyOrder(cs[i].actor.identity, cs[i + 1].actor.identity);
      IdentityKeyOrder(cs[i].actor.identity, cs[j].actor.identity);
      assert CandidateKey(cs[i]) <= CandidateKey(cs[i + 1]) <= CandidateKey(cs[j]);
    }
    return false;
  }

  // ----- the two passes -----------------------------------------------------------------------

  predicate IsVictim(n: Intent, c: Candidate) { n.victim == Some(c.actor.identity) }

  predicate InRange(p: Policy, n: Intent, c: Candidate) {
    c.actor.position.IsFinite() && (IsVictim(n, c) || p.within(n.offender.position, c.actor.position))
  }

  function Eligibility(p: Policy, n: Intent, c: Candidate): u8 {
    if !InRange(p, n, c) then OUTSIDE_RADIUS
    else if !c.actor.identity.IsValid() || c.actor.identity.kind != NPC then KIND_REJECTED
    else if !c.actor.eligibilityKnown || !c.actor.enabled || !c.actor.alive || !c.actor.conscious then ACTOR_INELIGIBLE
    else if c.relationship == REL_IN_COMBAT then IN_COMBAT
    else if c.relationship == REL_FOLLOWER then FOLLOWER
    else if c.relationship != REL_ELIGIBLE then RELATIONSHIP_UNKNOWN
    else ELIGIBLE
  }

  function ObservationPath(n: Intent, victim: bool): u8 {
    if victim && (n.victimAware || n.crime == ASSAULT) then VICTIM_AWARE
    else if n.crime == MURDER && !victim then MURDER_HEARING
    else LINE_OF_SIGHT
  }

  function Raised(p: Policy, s: Snapshot): Snapshot { s.(position := s.position.(z := p.raise(s.position.z))) }

  function QueryFor(p: Policy, n: Intent, c: Candidate): Query {
    var path := ObservationPath(n, IsVictim(n, c));
    Query(n.eventId, n.cellId,
          if path == LINE_OF_SIGHT then Raised(p, c.actor) else c.actor,
          if path == LINE_OF_SIGHT then Raised(p, n.offender) else n.offender,
          n.victim, path, c.relationshipAuthority, n.observedAtMs, n.maximumSnapshotAgeMs, n.collisionGenerations)
  }

  /** The first pass, for one witness. */
  function Perceive(p: Policy, n: Intent, c: Candidate): Witness {
    var eligibility := Eligibility(p, n, c);
    var observation := if eligibility == ELIGIBLE then Some(p.observe(QueryFor(p, n, c))) else None;
    Witness(c.actor.identity, InRange(p, n, c), IsVictim(n, c), eligibility, c.alarm, c.fight, c.guard,
            c.relationshipAuthority, observation, observation.Some? && observation.value.observable,
            false, false, NO_AGGRESSION)
  }

  /** The second pass, for one witness, once it is known whether anybody perceived the crime. */
  function Report(p: Policy, n: Intent, seen: bool, c: Candidate, w: Witness): Witness {
    var capable := w.eligibility == ELIGIBLE && w.alarm >= ALARM_THRESHOLD;
    var input := AggressionInput(n.crime, n.value, w.victim, w.fight, w.alarm, c.actor.position, n.offender.position);
    w.(reportCapable := capable, reported := seen && capable,
       aggression := if seen && w.eligibility == ELIGIBLE && !(w.guard && capable) then p.aggression(input)
                     else w.aggression)
  }

  predicate Seen(p: Policy, n: Intent, cs: seq<Candidate>) {
    exists i :: 0 <= i < |cs| && Perceive(p, n, cs[i]).perceived
  }

  function Witnesses(p: Policy, n: Intent, cs: seq<Candidate>): (ws: seq<Witness>)
    ensures |ws| == |cs|
  {
    seq(|cs|, i requires 0 <= i < |cs| => Report(p, n, Seen(p, n, cs), cs[i], Perceive(p, n, cs[i])))
  }

  predicate AnyReported(ws: seq<Witness>) { exists i :: 0 <= i < |ws| && ws[i].reported }

  function Times(value: real, multiplier: real): (r: real)
    ensures value >= 0.0 && multiplier >= 0.0 ==> r >= 0.0
  {
    value * multiplier
  }

  /** The bounty of a theft: None when it is more than an int32. */
  function TheftBounty(bounty: real): (r: Option<i32>)
    requires bounty >= 0.0
  {
    if bounty > MAX_I32 as real then None
    else if bounty < 1.0 then Some(1) else Some(bounty.Floor)
  }

  function BountyFor(n: Intent, p: Policy): (r: Option<i32>)
    requires ValidPolicy(p) && ValidType(n.crime) && (n.crime == THEFT ==> n.value >= 0)
    ensures r.Some? ==> r.value >= 0
    ensures r.None? ==> n.crime == THEFT
  {
    if n.crime == THEFT then
      TheftBounty(Times(n.value as real, p.theftMultiplier))
    else if n.crime == PICKPOCKET then Some(p.pickpocketBounty)
    else if n.crime == TRESPASS then Some(p.trespassBounty)
    else if n.crime == ASSAULT then Some(p.assaultBounty)
    else if n.crime == MURDER then Some(p.murderBounty)
    else Some(p.werewolfBounty)
  }

  /** The result before anything is known: also what a rejected intent is journaled with. */
  function Blank(n: Intent): CrimeResult {
    CrimeResult(CRIME_VERSION, n.eventId, n.crime, false, NO_ERROR, [], false, false, false, 0, false, INITIAL_STATE)
  }

  /** The list checks of evaluate. */
  ghost predicate ValidWitnessList(cs: seq<Candidate>) {
    |cs| <= MAX_WITNESSES && (forall c <- cs :: ValidCandidate(c)) && Distinct(cs)
  }

  /** The result up to the character's state: accepted, or carrying the error of the rejection. */
  ghost function Judge(p: Policy, n: Intent, playerGuid: u32, cs: seq<Candidate>): CrimeResult
    requires ValidPolicy(p)
  {
    if !ValidIntent(n, playerGuid) || !ValidWitnessList(cs) then Blank(n).(error := INVALID_INTENT)
    else
      var sorted := Sort(cs);
      var ws := Witnesses(p, n, sorted);
      var seen := Seen(p, n, sorted);
      var applied := AnyReported(ws);
      var judged := Blank(n).(witnesses := ws, crimeSeen := seen, reportingStageRun := seen, bountyApplied := applied);
      match BountyFor(n, p)
      case None => judged.(error := STATE_OVERFLOW)
      case Some(bounty) =>
        judged.(accepted := true, bountyDelta := if applied then bounty else 0,
                crimeIdAdvanced := seen && n.crime != WEREWOLF)
  }

  // ----- the imperative form ------------------------------------------------------------------

  method PerceptionPass(p: Policy, n: Intent, cs: seq<Candidate>) returns (ws: seq<Witness>, seen: bool)
    ensures |ws| == |cs| && forall i :: 0 <= i < |cs| ==> ws[i] == Perceive(p, n, cs[i])
    ensures seen == Seen(p, n, cs)
  {
    ws, seen := [], false;
    for i := 0 to |cs|
      invariant |ws| == i && forall k :: 0 <= k < i ==> ws[k] == Perceive(p, n, cs[k])
      invariant seen <==> exists k :: 0 <= k < i && Perceive(p, n, cs[k]).perceived
    {
      var w := Perceive(p, n, cs[i]);
      seen := seen || w.perceived;
      ws := ws + [w];
    }
  }

  /** std::find_if for the input of a witness. */
  method FindInput(cs: seq<Candidate>, identity: Identity) returns (k: nat)
    requires exists i :: 0 <= i < |cs| && cs[i].actor.identity == identity
    ensures k < |cs| && cs[k].actor.identity == identity
  {
    k := 0;
    while cs[k].actor.identity != identity
      invariant k < |cs| && forall i :: 0 <= i < k ==> cs[i].actor.identity != identity
      decreases |cs| - k
    {
      assert k + 1 < |cs|;
      k := k + 1;
    }
  }

  method ReportingPass(p: Policy, n: Intent, cs: seq<Candidate>, perceived: seq<Witness>, seen: bool)
    returns (ws: seq<Witness>, applied: bool)
    requires Distinct(cs) && seen == Seen(p, n, cs)
    requires |perceived| == |cs| && forall i :: 0 <= i < |cs| ==> perceived[i] == Perceive(p, n, cs[i])
    ensures ws == Witnesses(p, n, cs) && applied == AnyReported(ws)
  {
    ws, applied := perceived, false;
    for i := 0 to |cs|
      invariant |ws| == |cs|
      invariant forall k :: 0 <= k < i ==> ws[k] == Report(p, n, seen, cs[k], Perceive(p, n, cs[k]))
      invariant forall k :: i <= k < |cs| ==> ws[k] == perceived[k]
      invariant applied <==> exists k :: 0 <= k < i && ws[k].reported
    {
      var input := FindInput(cs, ws[i].identity);
      assert input == i;
      ws := ws[i := Report(p, n, seen, cs[input], ws[i])];
      applied := applied || ws[i].reported;
    }
  }

  method Assess(p: Policy, n: Intent, playerGuid: u32, cs: seq<Candidate>) returns (r: CrimeResult)
    requires ValidPolicy(p)
    ensures r == Judge(p, n, playerGuid, cs)
  {
    hide ValidIntent, ValidCandidate, Witnesses, Seen, AnyReported;
    r := Blank(n);
    if !ValidIntent(n, playerGuid) || |cs| > MAX_WITNESSES { return r.(error := INVALID_INTENT); }
    for i := 0 to |cs|
      invariant forall k :: 0 <= k < i ==> ValidCandidate(cs[k])
    {
      if !ValidCandidate(cs[i]) { return r.(error := INVALID_INTENT); }
    }
    var sorted := Sort(cs);
    SortSorts(cs);
    DistinctPermutation(cs, sorted);
    var duplicate := HasAdjacentDuplicate(sorted);
    if duplicate { return r.(error := INVALID_INTENT); }
    var perceived, seen := PerceptionPass(p, n, sorted);
    var ws, applied := ReportingPass(p, n, sorted, perceived, seen);
    r := r.(witnesses := ws, crimeSeen := seen, reportingStageRun := seen, bountyApplied := applied);
    assert ValidType(n.crime) && (n.crime == THEFT ==> n.value >= 0) by { ValidIntentValue(n, playerGuid); }
    var bounty := BountyFor(n, p);
    if bounty.None? { return r.(error := STATE_OVERFLOW); }
    r := r.(accepted := true, bountyDelta := if applied then bounty.value else 0,
            crimeIdAdvanced := seen && n.crime != WEREWOLF);
  }

  lemma ValidIntentValue(n: Intent, playerGuid: u32)
    requires ValidIntent(n, playerGuid)
    ensures ValidType(n.crime) && (n.crime == THEFT ==> n.value >= 0)
  {
  }

  // ----- what the judgement means -------------------------------------------------------------

  lemma {:induction false} DistinctPermutation(a: seq<Candidate>, b: seq<Candidate>)
    requires multiset(a) == multiset(b)
    ensures Distinct(a) <==> Distinct(b)
  {
    if Distinct(a) { DistinctOneWay(a, b); }
    if Distinct(b) { DistinctOneWay(b, a); }
  }

  lemma DistinctOneWay(a: seq<Candidate>, b: seq<Candidate>)
    requires multiset(a) == multiset(b) && Distinct(a)
    ensures Distinct(b)
  {
    forall i, j | 0 <= i < j < |b|
      ensures b[i].actor.identity != b[j].actor.identity
    {
      if b[i].actor.identity == b[j].actor.identity {
        assert b[i] in multiset(b) && b[j] in multiset(b);
        var k: int :| 0 <= k < |a| && a[k] == b[i];
        var l: int :| 0 <= l < |a| && a[l] == b[j];
        assert k == l;
        Sorting.OccursTwice(b, i, j);
        OnceWhenDistinct(a, k);
      }
    }
  }

  lemma OnceWhenDistinct(a: seq<Candidate>, k: nat)
    requires Distinct(a) && k < |a|
    ensures multiset(a)[a[k]] == 1
  {
    assert a == a[..k] + [a[k]] + a[k + 1..];
    assert a[k] !in multiset(a[..k]) && a[k] !in multiset(a[k + 1..]);
  }

  /** The judgement does not depend on the order in which the witnesses are listed. */
  lemma JudgeIgnoresOrder(p: Policy, n: Intent, playerGuid: u32, a: seq<Candidate>, b: seq<Candidate>)
    requires ValidPolicy(p) && multiset(a) == multiset(b)
    ensures Judge(p, n, playerGuid, a) == Judge(p, n, playerGuid, b)
  {
    hide ValidIntent, ValidCandidate, Witnesses, Seen, AnyReported;
    assert |multiset(a)| == |a| && |multiset(b)| == |b|;
    forall c
      ensures c in a <==> c in b
    {
      assert c in multiset(a) <==> c in multiset(b);
    }
    DistinctPermutation(a, b);
    if Distinct(a) {
      SortSorts(a);
      SortSorts(b);
      DistinctPermutation(a, Sort(a));
      SortedUnique(Sort(a), Sort(b));
    }
  }

  /** Close enough to count at all: the victim always is, wherever it has a position. */
  predicate Nearby(p: Policy, n: Intent, c: Candidate) {
    c.actor.position.IsFinite() && (n.victim == Some(c.actor.identity) || p.within(n.offender.position, c.actor.position))
  }

  /** A living, conscious NPC nearby, known well enough, that has nothing to do with the offender. */
  predicate CanWitness(p: Policy, n: Intent, c: Candidate) {
    && Nearby(p, n, c) && c.actor.identity.IsValid() && c.actor.identity.kind == NPC
    && c.actor.eligibilityKnown && c.actor.enabled && c.actor.alive && c.actor.conscious
    && c.relationship == REL_ELIGIBLE
  }

  /** Each reason for leaving a candidate out, when none of the earlier ones applies. */
  lemma EligibilityMeaning(p: Policy, n: Intent, c: Candidate)
    ensures var e, near := Eligibility(p, n, c), Nearby(p, n, c);
            var kind := c.actor.identity.IsValid() && c.actor.identity.kind == NPC;
            var fit := c.actor.eligibilityKnown && c.actor.enabled && c.actor.alive && c.actor.conscious;
            && (e == ELIGIBLE <==> CanWitness(p, n, c))
            && (e == OUTSIDE_RADIUS <==> !near)
            && (e == KIND_REJECTED <==> near && !kind)
            && (e == ACTOR_INELIGIBLE <==> near && kind && !fit)
            && (e == IN_COMBAT <==> near && kind && fit && c.relationship == REL_IN_COMBAT)
            && (e == FOLLOWER <==> near && kind && fit && c.relationship == REL_FOLLOWER)
            && (e == RELATIONSHIP_UNKNOWN <==> near && kind && fit && c.relationship >= REL_UNKNOWN)
  {
  }

  /** The victim notices by itself what it is aware of, and every assault; a murder is heard by everybody else; all
    the rest has to be seen. */
  ghost predicate PathOf(n: Intent, c: Candidate, path: u8) {
    && path in {LINE_OF_SIGHT, VICTIM_AWARE, MURDER_HEARING}
    && (path == VICTIM_AWARE <==> n.victim == Some(c.actor.identity) && (n.victimAware || n.crime == ASSAULT))
    && (path == MURDER_HEARING <==> n.victim != Some(c.actor.identity) && n.crime == MURDER)
  }

  /** `high` is `low` at the height of the eyes. */
  ghost predicate AtEyes(p: Policy, low: Snapshot, high: Snapshot) {
    high.position == Vector(low.position.x, low.position.y, p.raise(low.position.z)) && high.(position := low.position) == low
  }

  /** `q` asks whether the candidate observes the offender, on the evidence of the intent. */
  ghost predicate Asks(p: Policy, n: Intent, c: Candidate, q: Query) {
    && PathOf(n, c, q.path)
    && (if q.path == LINE_OF_SIGHT then AtEyes(p, c.actor, q.observer) && AtEyes(p, n.offender, q.target)
        else q.observer == c.actor && q.target == n.offender)
    && q.victim == n.victim && q.eventAuthority == c.relationshipAuthority
    && q.eventId == n.eventId && q.cellId == n.cellId && q.generations == n.collisionGenerations
    && q.observedAtMs == n.observedAtMs && q.maximumSnapshotAgeMs == n.maximumSnapshotAgeMs
  }

  /** Exactly one question is asked about a candidate. */
  lemma OneQuestion(p: Policy, n: Intent, c: Candidate, q: Query)
    ensures Asks(p, n, c, q) <==> q == QueryFor(p, n, c)
  {
    if Asks(p, n, c, q) {
      var r := QueryFor(p, n, c);
      assert q.path == r.path;
      if q.path == LINE_OF_SIGHT {
        assert q.observer == r.observer && q.target == r.target;
      }
    }
  }

  /** The candidate counts and observes the offender. */
  ghost predicate Saw(p: Policy, n: Intent, c: Candidate) {
    CanWitness(p, n, c) && exists q :: Asks(p, n, c, q) && p.observe(q).observable
  }

  lemma PerceivedMeaning(p: Policy, n: Intent, c: Candidate)
    ensures Perceive(p, n, c).perceived <==> Saw(p, n, c)
  {
    hide QueryFor, Asks, Eligibility, CanWitness;
    EligibilityMeaning(p, n, c);
    OneQuestion(p, n, c, QueryFor(p, n, c));
    if q :| Asks(p, n, c, q) && p.observe(q).observable { OneQuestion(p, n, c, q); }
  }

  /** A crime is seen exactly when somebody saw it. */
  lemma SeenMeaning(p: Policy, n: Intent, cs: seq<Candidate>)
    ensures Seen(p, n, cs) <==> exists c <- cs :: Saw(p, n, c)
  {
    hide Perceive, Saw;
    if Seen(p, n, cs) {
      var i :| 0 <= i < |cs| && Perceive(p, n, cs[i]).perceived;
      PerceivedMeaning(p, n, cs[i]);
      assert cs[i] in cs;
    }
    if c :| c in cs && Saw(p, n, c) {
      var i :| 0 <= i < |cs| && cs[i] == c;
      PerceivedMeaning(p, n, cs[i]);
    }
  }

  /** What the judgement says about one witness, in the place of the candidate it was made for. */
  ghost predicate SpeaksOf(p: Policy, n: Intent, seen: bool, c: Candidate, w: Witness) {
    var capable := CanWitness(p, n, c) && c.alarm >= 100;
    && w.identity == c.actor.identity && w.candidate == Nearby(p, n, c) && w.victim == (n.victim == Some(c.actor.identity))
    && w.alarm == c.alarm && w.fight == c.fight && w.guard == c.guard && w.relationshipAuthority == c.relationshipAuthority
    && (w.eligibility == ELIGIBLE <==> CanWitness(p, n, c))
    && (w.observation.Some? <==> CanWitness(p, n, c))
    && (w.observation.Some? ==> exists q :: Asks(p, n, c, q) && w.observation == Some(p.observe(q)))
    && (w.perceived <==> Saw(p, n, c))
    && w.reportCapable == capable && w.reported == (seen && capable)
    && w.aggression == if seen && CanWitness(p, n, c) && !(c.guard && capable)
                       then p.aggression(AggressionInput(n.crime, n.value, n.victim == Some(c.actor.identity), c.fight, c.alarm,
                                                         c.actor.position, n.offender.position))
                       else NO_AGGRESSION
  }

  lemma WitnessMeaning(p: Policy, n: Intent, seen: bool, c: Candidate)
    ensures SpeaksOf(p, n, seen, c, Report(p, n, seen, c, Perceive(p, n, c)))
  {
    hide QueryFor, Asks, Eligibility, Saw;
    EligibilityMeaning(p, n, c);
    PerceivedMeaning(p, n, c);
    OneQuestion(p, n, c, QueryFor(p, n, c));
  }

  /** What a theft of goods worth `value` costs: that times the multiplier, rounded down, and at least one; nothing can be
    charged when there is no room for it. */
  ghost predicate TheftCosts(value: real, multiplier: real, r: Option<i32>) {
    var worth := value * multiplier;
    match r
    case None => worth > 2147483647.0
    case Some(bounty) =>
      && worth <= 2147483647.0 && bounty >= 1 && (worth < 1.0 ==> bounty == 1)
      && (worth >= 1.0 ==> bounty as real <= worth < bounty as real + 1.0)
  }

  lemma TheftAmount(value: real, multiplier: real)
    requires value >= 0.0 && multiplier >= 0.0
    ensures TheftCosts(value, multiplier, TheftBounty(Times(value, multiplier)))
  {
  }

  /** Every other crime costs its own amount. */
  lemma BountyAmount(n: Intent, p: Policy)
    requires ValidPolicy(p) && ValidType(n.crime) && (n.crime == THEFT ==> n.value >= 0)
    ensures n.crime == THEFT ==> TheftCosts(n.value as real, p.theftMultiplier, BountyFor(n, p))
    ensures n.crime == PICKPOCKET ==> BountyFor(n, p) == Some(p.pickpocketBounty)
    ensures n.crime == TRESPASS ==> BountyFor(n, p) == Some(p.trespassBounty)
    ensures n.crime == ASSAULT ==> BountyFor(n, p) == Some(p.assaultBounty)
    ensures n.crime == MURDER ==> BountyFor(n, p) == Some(p.murderBounty)
    ensures n.crime == WEREWOLF ==> BountyFor(n, p) == Some(p.werewolfBounty)
  {
    hide TheftCosts, TheftBounty, Times;
    if n.crime == THEFT { TheftAmount(n.value as real, p.theftMultiplier); }
  }

  /** Judged on its own evidence: the witnesses are the candidates in the order of their identities; the crime is seen
    exactly when somebody who counts observes the offender; a bounty is due exactly when moreover somebody who counts, not
    necessarily the same actor, has full alarm; and every witness is reported on as such. Only then is it charged. */
  lemma BountyMeaning(p: Policy, n: Intent, playerGuid: u32, cs: seq<Candidate>)
    requires ValidPolicy(p) && ValidIntent(n, playerGuid) && ValidWitnessList(cs)
    ensures var r := Judge(p, n, playerGuid, cs);
            && (r.crimeSeen <==> exists c <- cs :: Saw(p, n, c)) && r.reportingStageRun == r.crimeSeen
            && (r.bountyApplied <==> r.crimeSeen && exists c <- cs :: CanWitness(p, n, c) && c.alarm == 100)
            && |r.witnesses| == |cs|
            && (forall i :: 0 <= i < |cs| ==> SpeaksOf(p, n, r.crimeSeen, Sort(cs)[i], r.witnesses[i]))
            && (r.crimeIdAdvanced <==> r.accepted && r.crimeSeen && n.crime != WEREWOLF)
            && (r.bountyDelta == if r.accepted && r.bountyApplied then BountyFor(n, p).value else 0)
            && (r.accepted <==> BountyFor(n, p).Some?) && r.error == (if r.accepted then NO_ERROR else STATE_OVERFLOW)
  {
    hide ValidIntent, Eligibility, Perceive, Report, CanWitness, Saw, SpeaksOf, Sort, ValidCandidate, Seen, AnyReported, BountyFor;
    SortSorts(cs);
    var sorted := Sort(cs);
    SeenMeaning(p, n, sorted);
    AppliedMeaning(p, n, sorted);
    forall c
      ensures c in cs <==> c in sorted
    {
      assert c in multiset(cs) <==> c in multiset(sorted);
    }
    forall c <- cs ensures c.alarm <= 100 { assert ValidCandidate(c); AlarmInRange(c); }
    forall i | 0 <= i < |cs|
      ensures SpeaksOf(p, n, Seen(p, n, sorted), sorted[i], Witnesses(p, n, sorted)[i])
    {
      WitnessMeaning(p, n, Seen(p, n, sorted), sorted[i]);
    }
  }

  lemma AlarmInRange(c: Candidate)
    requires ValidCandidate(c)
    ensures c.alarm <= 100
  {
  }

  lemma AppliedMeaning(p: Policy, n: Intent, cs: seq<Candidate>)
    ensures AnyReported(Witnesses(p, n, cs))
            <==> Seen(p, n, cs) && exists c <- cs :: CanWitness(p, n, c) && c.alarm >= 100
  {
    hide Eligibility, Perceive, Report, Saw, Seen, CanWitness;
    var ws := Witnesses(p, n, cs);
    forall i | 0 <= i < |ws|
      ensures ws[i].reported == (Seen(p, n, cs) && CanWitness(p, n, cs[i]) && cs[i].alarm >= 100)
    {
      WitnessMeaning(p, n, Seen(p, n, cs), cs[i]);
    }
    if AnyReported(ws) {
      var i :| 0 <= i < |ws| && ws[i].reported;
      assert cs[i] in cs;
    }
    if Seen(p, n, cs) {
      if c :| c in cs && CanWitness(p, n, c) && c.alarm >= 100 {
        var i :| 0 <= i < |cs| && cs[i] == c;
        assert ws[i].reported;
      }
    }
  }
}
