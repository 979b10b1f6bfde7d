/** CrimeWitnessBuilder: from the actors listed by the cells around an event to the witnesses that are
  handed to the crime service. */
module WitnessBuilder {
  import opened Wrappers
  import opened ByteBuffers
  import opened CrimeTypes
  import opened CrimeStore
  import opened CrimeJudgement
  import opened S = Sorting

  datatype AlarmProvenance = AlarmUnavailable_ | AlarmStatic | AlarmDelegated
  datatype FightProvenance = FightUnavailable_ | FightStatic | FightDelegated | FightServerScoped
  datatype RelationshipProvenance = RelationshipUnavailable | RelationshipServer | RelationshipDelegated

  /** LiveCrimeWitnessActor */
  datatype Actor = Actor(
    identity: Identity, cellId: Bytes, migrationGeneration: u32, authorityGeneration: u32, bootWeight: Float,
    alarm: Option<i32>, alarmProvenance: AlarmProvenance, fight: Option<i32>, fightProvenance: FightProvenance,
    guard: bool, relationship: u8, relationshipProvenance: RelationshipProvenance)

  /** AcceptedMechanicsSnapshot: what the live observation is made of, and the delegated witness state. */
  datatype Accepted = Accepted(
    live: Snapshot, cellId: Bytes, receivedAtMs: u64,
    alarmKnown: bool, effectiveAlarm: i32, fightKnown: bool, effectiveFight: i32,
    relationshipKnown: bool, follower: bool, combatTarget: Option<Identity>)

  /** How the squared distance of two positions compares with the squared alarm radius. */
  datatype Reach = Inside | Outside | NotFinite

  /** `cells` are the candidate cells of the event; `usableRadius` is the check on the alarm radius. */
  datatype BuildRequest = BuildRequest(
    offender: Snapshot, victim: Option<Identity>, cells: seq<Bytes>, usableRadius: bool,
    observedAtMs: u64, maximumSnapshotAgeMs: u64)

  datatype World = World(
    actorsInCell: Bytes -> seq<Actor>, findActor: Identity -> Option<Actor>,
    snapshots: map<Identity, Accepted>, reach: (Vector, Vector) -> Reach)

  datatype Reason = Included | DuplicateIdentity | CanonicalKindRejected | OutsideAlarmRadius
                  | MechanicsSnapshotMissing | MechanicsSnapshotStale | WrongCell | WrongMigrationGeneration
                  | WrongAuthorityGeneration | ActorIneligible | AlarmUnavailable | AlarmInvalid
                  | FightUnavailable | FightInvalid | InCombatWithVictim | PlayerFollower | RelationshipUnknown

  datatype Sourced = Sourced(enumeratedCellId: Bytes, actor: Actor)

  datatype Decision = Decision(identity: Identity, reason: Reason)

  // ----- one actor -----------------------------------------------------------------------------------------

  function MakeLive(a: Accepted, bootWeight: Float): Snapshot {
    a.live.(hasFacing := true, eligibilityKnown := true, awarenessInputsKnown := true,
            bootWeight := bootWeight, sampledAtMs := a.receivedAtMs)
  }

  /** The witness state after the delegated values have been taken into account. */
  datatype State = State(alarm: Option<i32>, alarmAvailable: bool, fight: Option<i32>, fightAvailable: bool,
                         relationship: u8, relationshipProvenance: RelationshipProvenance)

  function Effective(r: BuildRequest, actor: Actor, m: Accepted): State {
    var fightDelegated := m.fightKnown && actor.fightProvenance != FightServerScoped;
    State(
      if m.alarmKnown then Some(m.effectiveAlarm) else actor.alarm,
      m.alarmKnown || actor.alarmProvenance != AlarmUnavailable_,
      if fightDelegated then Some(m.effectiveFight) else actor.fight,
      fightDelegated || actor.fightProvenance != FightUnavailable_,
      if !m.relationshipKnown then actor.relationship
      else if m.follower then REL_FOLLOWER
      else if r.victim.Some? && m.combatTarget == r.victim then REL_IN_COMBAT
      else REL_ELIGIBLE,
      if m.relationshipKnown then RelationshipDelegated else actor.relationshipProvenance)
  }

  function Consider(w: World, r: BuildRequest, s: Sourced): Reason {
    var actor := s.actor;
    if !actor.identity.IsValid() || actor.identity.kind != NPC then CanonicalKindRejected
    else if actor.identity !in w.snapshots then MechanicsSnapshotMissing
    else
      var m := w.snapshots[actor.identity];
      if r.observedAtMs < m.receivedAtMs || r.observedAtMs - m.receivedAtMs > r.maximumSnapshotAgeMs then MechanicsSnapshotStale
      else if actor.cellId != s.enumeratedCellId || m.cellId != actor.cellId then WrongCell
      else if actor.migrationGeneration == 0 || m.live.migrationGeneration != actor.migrationGeneration then WrongMigrationGeneration
      else if actor.authorityGeneration == 0 || m.live.authorityGeneration != actor.authorityGeneration then WrongAuthorityGeneration
      else
        var live := MakeLive(m, actor.bootWeight);
        var reach := w.reach(r.offender.position, live.position);
        var state := Effective(r, actor, m);
        if !live.position.IsFinite() || reach == NotFinite || (r.victim != Some(actor.identity) && reach == Outside) then OutsideAlarmRadius
        else if !live.eligibilityKnown || !live.enabled || !live.alive || !live.conscious then ActorIneligible
        else if state.alarm.None? || !state.alarmAvailable then AlarmUnavailable
        else if state.alarm.value < 0 || state.alarm.value > 100 then AlarmInvalid
        else if state.fight.None? || !state.fightAvailable then FightUnavailable
        else if state.fight.value < 0 || state.fight.value > 100 then FightInvalid
        else if state.relationship == REL_IN_COMBAT then InCombatWithVictim
        else if state.relationship == REL_FOLLOWER then PlayerFollower
        else if state.relationship != REL_ELIGIBLE || state.relationshipProvenance == RelationshipUnavailable then RelationshipUnknown
        else Included
  }

  function CandidateOf(w: World, r: BuildRequest, s: Sourced): Candidate
    requires Consider(w, r, s) == Included
  {
    var m := w.snapshots[s.actor.identity];
    var state := Effective(r, s.actor, m);
    Candidate(MakeLive(m, s.actor.bootWeight), state.alarm.value, state.fight.value, s.actor.guard, state.relationship,
              if state.relationshipProvenance == RelationshipDelegated then ACTOR_DELEGATED else SERVER_AUTHORITATIVE)
  }

  // What it takes to be a witness, field by field: the delegated value where there is one, and otherwise the actor's own.

  ghost predicate HasAlarm(actor: Actor, m: Accepted, alarm: int) {
    if m.alarmKnown then alarm == m.effectiveAlarm
    else actor.alarm.Some? && actor.alarm.value == alarm && actor.alarmProvenance != AlarmUnavailable_
  }

  /** A fight value that the server scoped to this offender is never replaced. */
  ghost predicate HasFight(actor: Actor, m: Accepted, fight: int) {
    if m.fightKnown && actor.fightProvenance != FightServerScoped then fight == m.effectiveFight
    else actor.fight.Some? && actor.fight.value == fight && actor.fightProvenance != FightUnavailable_
  }

  ghost predicate Uninvolved(r: BuildRequest, actor: Actor, m: Accepted) {
    if m.relationshipKnown then !m.follower && !(r.victim.Some? && m.combatTarget == Some(r.victim.value))
    else actor.relationship == REL_ELIGIBLE && actor.relationshipProvenance != RelationshipUnavailable
  }

  /** The snapshot is neither from the future nor too old. */
  predicate Recent(r: BuildRequest, m: Accepted) {
    m.receivedAtMs <= r.observedAtMs <= m.receivedAtMs + r.maximumSnapshotAgeMs
  }

  /** Cell and generations agree: the listing, the actor and its snapshot speak of the same place and owner. */
  predicate SamePlace(s: Sourced, m: Accepted) { s.enumeratedCellId == s.actor.cellId == m.cellId }

  predicate SameOwner(s: Sourced, m: Accepted) {
    && s.actor.migrationGeneration == m.live.migrationGeneration != 0
    && s.actor.authorityGeneration == m.live.authorityGeneration != 0
  }

  predicate WithinReach(w: World, r: BuildRequest, s: Sourced, m: Accepted) {
    && m.live.position.IsFinite() && w.reach(r.offender.position, m.live.position) != NotFinite
    && (r.victim == Some(s.actor.identity) || w.reach(r.offender.position, m.live.position) == Inside)
  }

  ghost predicate Qualifies(w: World, r: BuildRequest, s: Sourced) {
    && s.actor.identity.IsValid() && s.actor.identity.kind == NPC && s.actor.identity in w.snapshots
    && var m := w.snapshots[s.actor.identity];
       && Recent(r, m) && SamePlace(s, m) && SameOwner(s, m) && WithinReach(w, r, s, m)
       && m.live.enabled && m.live.alive && m.live.conscious
       && (exists alarm :: HasAlarm(s.actor, m, alarm) && 0 <= alarm <= 100)
       && (exists fight :: HasFight(s.actor, m, fight) && 0 <= fight <= 100)
       && Uninvolved(r, s.actor, m)
  }

  /** The candidate carries the snapshot as it was received and the values above; a relationship is marked as
    delegated exactly when the actor's owner told it. */
  ghost predicate Describes(w: World, s: Sourced, c: Candidate) {
    && s.actor.identity in w.snapshots
    && var m := w.snapshots[s.actor.identity];
       && c.actor == m.live.(hasFacing := true, eligibilityKnown := true, awarenessInputsKnown := true,
                             bootWeight := s.actor.bootWeight, sampledAtMs := m.receivedAtMs)
       && HasAlarm(s.actor, m, c.alarm) && HasFight(s.actor, m, c.fight) && c.guard == s.actor.guard
       && c.relationship == REL_ELIGIBLE
       && c.relationshipAuthority == if m.relationshipKnown || s.actor.relationshipProvenance == RelationshipDelegated
                                     then ACTOR_DELEGATED else SERVER_AUTHORITATIVE
  }

  /** Exactly such an actor is included, as exactly this candidate. */
  lemma IncludedMeaning(w: World, r: BuildRequest, s: Sourced)
    ensures Consider(w, r, s) == Included <==> Qualifies(w, r, s)
    ensures Consider(w, r, s) == Included ==> forall c :: Describes(w, s, c) <==> c == CandidateOf(w, r, s)
  {
    if s.actor.identity in w.snapshots {
      var actor, m := s.actor, w.snapshots[s.actor.identity];
      var alarm := if m.alarmKnown then m.effectiveAlarm else if actor.alarm.Some? then actor.alarm.value else 0;
      assert forall a :: HasAlarm(actor, m, a) ==> a == alarm;
      assert HasAlarm(actor, m, alarm) || forall a :: !HasAlarm(actor, m, a);
      var delegated := m.fightKnown && actor.fightProvenance != FightServerScoped;
      var fight := if delegated then m.effectiveFight else if actor.fight.Some? then actor.fight.value else 0;
      assert forall f :: HasFight(actor, m, f) ==> f == fight;
      assert HasFight(actor, m, fight) || forall f :: !HasFight(actor, m, f);
    }
  }

  /** The first reasons for leaving an actor out, each when none of the earlier ones applies. */
  lemma LeftOutMeaning(w: World, r: BuildRequest, s: Sourced)
    ensures var e, known := Consider(w, r, s), s.actor.identity.IsValid() && s.actor.identity.kind == NPC;
            && (e == CanonicalKindRejected <==> !known)
            && (e == MechanicsSnapshotMissing <==> known && s.actor.identity !in w.snapshots)
            && (known && s.actor.identity in w.snapshots ==>
                  var m := w.snapshots[s.actor.identity];
                  && (e == MechanicsSnapshotStale <==> !Recent(r, m))
                  && (e == WrongCell <==> Recent(r, m) && !SamePlace(s, m))
                  && (e in {WrongMigrationGeneration, WrongAuthorityGeneration} <==> Recent(r, m) && SamePlace(s, m) && !SameOwner(s, m))
                  && (e == OutsideAlarmRadius <==> Recent(r, m) && SamePlace(s, m) && SameOwner(s, m) && !WithinReach(w, r, s, m)))
  {
  }

  /** What the evaluator will find, for an actor with a snapshot of its own. */
  lemma IncludedIsEligible(w: World, r: BuildRequest, s: Sourced, p: Policy, n: Intent)
    requires Consider(w, r, s) == Included && w.snapshots[s.actor.identity].live.identity == s.actor.identity
    requires n.victim == r.victim && n.offender.position == r.offender.position
    requires forall a, b :: w.reach(a, b) == Inside ==> p.within(a, b)
    ensures CandidateOf(w, r, s).actor.identity == s.actor.identity
    ensures ValidCandidate(CandidateOf(w, r, s)) && Eligibility(p, n, CandidateOf(w, r, s)) == ELIGIBLE
  {
  }

  // ----- all actors ----------------------------------------------------------------------------------------

  function SourcedAll(cell: Bytes, actors: seq<Actor>): seq<Sourced> {
    seq(|actors|, i requires 0 <= i < |actors| => Sourced(cell, actors[i]))
  }

  function Listed(w: World, cells: seq<Bytes>): seq<Sourced> {
    if cells == [] then []
    else
      var cell := cells[|cells| - 1];
      Listed(w, cells[..|cells| - 1]) + SourcedAll(cell, w.actorsInCell(cell))
  }

  predicate Enumerated(actors: seq<Sourced>, identity: Identity) {
    exists s <- actors :: s.actor.identity == identity
  }

  /** A victim that no cell lists is looked up directly. */
  function WithVictim(w: World, r: BuildRequest, actors: seq<Sourced>): seq<Sourced> {
    if r.victim.None? || Enumerated(actors, r.victim.value) || w.findActor(r.victim.value).None? then actors
    else var victim := w.findActor(r.victim.value).value; actors + [Sourced(victim.cellId, victim)]
  }

  predicate InOrder(a: Sourced, b: Sourced) {
    var x, y := IdentityKey(a.actor.identity), IdentityKey(b.actor.identity);
    x < y || (x == y && (Before(a.enumeratedCellId, b.enumeratedCellId)
                         || (a.enumeratedCellId == b.enumeratedCellId && AtMost(a.actor.cellId, b.actor.cellId))))
  }

  lemma InOrderIsPreorder()
    ensures TotalPreorder(InOrder)
  {
    hide Before;
    AtMostIsOrder();
    forall a, b
      ensures InOrder(a, b) || InOrder(b, a)
    {
      BeforeIsTotal(a.enumeratedCellId, b.enumeratedCellId);
    }
    forall a, b, c | InOrder(a, b) && InOrder(b, c)
      ensures InOrder(a, c)
    {
      if Before(a.enumeratedCellId, b.enumeratedCellId) && Before(b.enumeratedCellId, c.enumeratedCellId) {
        BeforeIsTransitive(a.enumeratedCellId, b.enumeratedCellId, c.enumeratedCellId);
      }
    }
  }

  function Count(actors: seq<Sourced>, identity: Identity): nat {
    if actors == [] then 0
    else Count(actors[..|actors| - 1], identity) + if actors[|actors| - 1].actor.identity == identity then 1 else 0
  }

  /** The witnesses among the first actors of a list, where `all` decides which identities are duplicates. */
  function WitnessesAmong(w: World, r: BuildRequest, all: seq<Sourced>, actors: seq<Sourced>): seq<Candidate> {
    if actors == [] then []
    else
      var last := actors[|actors| - 1];
      WitnessesAmong(w, r, all, actors[..|actors| - 1])
      + if Count(all, last.actor.identity) == 1 && Consider(w, r, last) == Included then [CandidateOf(w, r, last)] else []
  }

  function Judged(w: World, r: BuildRequest, all: seq<Sourced>, s: Sourced): Decision {
    Decision(s.actor.identity, if Count(all, s.actor.identity) != 1 then DuplicateIdentity else Consider(w, r, s))
  }

  // ----- the operation ---------------------------------------------------------------------------------------

  datatype BuildResult = BuildResult(candidateCellIds: seq<Bytes>, witnesses: seq<Candidate>, decisions: seq<Decision>)

  predicate ValidBuildRequest(r: BuildRequest) {
    && r.offender.identity.IsValid() && r.offender.identity.kind == PLAYER && r.offender.position.IsFinite()
    && r.usableRadius && r.observedAtMs != 0
  }

  method Gather(w: World, r: BuildRequest) returns (actors: seq<Sourced>)
    ensures actors == WithVictim(w, r, Listed(w, r.cells))
  {
    actors := [];
    for i := 0 to |r.cells|
      invariant actors == Listed(w, r.cells[..i])
    {
      assert r.cells[..i + 1][..i] == r.cells[..i];
      var found := w.actorsInCell(r.cells[i]);
      ghost var before := actors;
      for k := 0 to |found|
        invariant actors == before + SourcedAll(r.cells[i], found[..k])
      {
        assert SourcedAll(r.cells[i], found[..k + 1]) == SourcedAll(r.cells[i], found[..k]) + [Sourced(r.cells[i], found[k])];
        actors := actors + [Sourced(r.cells[i], found[k])];
      }
      assert found[..|found|] == found;
    }
    assert r.cells[..|r.cells|] == r.cells;
    if r.victim.Some? && !Enumerated(actors, r.victim.value) {
      var victim := w.findActor(r.victim.value);
      if victim.Some? { actors := actors + [Sourced(victim.value.cellId, victim.value)]; }
    }
  }

  method Build(w: World, r: BuildRequest) returns (result: BuildResult)
    ensures !ValidBuildRequest(r) ==> result == BuildResult([], [], [])
    ensures ValidBuildRequest(r) ==>
              && result.candidateCellIds == r.cells
              && exists sorted ::
                   && Sorted(sorted, InOrder) && multiset(sorted) == multiset(WithVictim(w, r, Listed(w, r.cells)))
                   && result.witnesses == WitnessesAmong(w, r, sorted, sorted)
                   && |result.decisions| == |sorted|
                   && forall i :: 0 <= i < |sorted| ==> result.decisions[i] == Judged(w, r, sorted, sorted[i])
  {
    hide Consider, CandidateOf, InOrder, WitnessesAmong, Count, Judged, Listed;
    if !ValidBuildRequest(r) { return BuildResult([], [], []); }
    var gathered := Gather(w, r);
    var actors := S.Sort(gathered, InOrder);
    InOrderIsPreorder();
    S.SortSorts(gathered, InOrder);
    var identityCounts := CountIdentities(actors);
    var witnesses, decisions := Decide(w, r, actors, identityCounts);
    return BuildResult(r.cells, witnesses, decisions);
  }

  method CountIdentities(actors: seq<Sourced>) returns (identityCounts: map<Identity, nat>)
    ensures forall s <- actors :: s.actor.identity in identityCounts
    ensures forall id <- identityCounts :: identityCounts[id] == Count(actors, id)
  {
    identityCounts := map[];
    for i := 0 to |actors|
      invariant forall id :: (if id in identityCounts then identityCounts[id] else 0) == Count(actors[..i], id)
      invariant forall j :: 0 <= j < i ==> actors[j].actor.identity in identityCounts
    {
      var id := actors[i].actor.identity;
      assert actors[..i + 1][..i] == actors[..i];
      identityCounts := identityCounts[id := (if id in identityCounts then identityCounts[id] else 0) + 1];
    }
    assert actors[..|actors|] == actors;
  }

  method Decide(w: World, r: BuildRequest, actors: seq<Sourced>, identityCounts: map<Identity, nat>)
    returns (witnesses: seq<Candidate>, decisions: seq<Decision>)
    requires forall s <- actors :: s.actor.identity in identityCounts
    requires forall id <- identityCounts :: identityCounts[id] == Count(actors, id)
    ensures witnesses == WitnessesAmong(w, r, actors, actors)
    ensures |decisions| == |actors| && forall j :: 0 <= j < |actors| ==> decisions[j] == Judged(w, r, actors, actors[j])
  {
    hide Consider, CandidateOf, Count;
    witnesses, decisions := [], [];
    for i := 0 to |actors|
      invariant witnesses == WitnessesAmong(w, r, actors, actors[..i])
      invariant |decisions| == i && forall j :: 0 <= j < i ==> decisions[j] == Judged(w, r, actors, actors[j])
    {
      assert actors[..i + 1][..i] == actors[..i];
      var sourced := actors[i];
      assert sourced in actors;
      var reason := if identityCounts[sourced.actor.identity] != 1 then DuplicateIdentity else Consider(w, r, sourced);
      if reason == Included { witnesses := witnesses + [CandidateOf(w, r, sourced)]; }
      decisions := decisions + [Decision(sourced.actor.identity, reason)];
    }
    assert actors[..|actors|] == actors;
  }

  // ----- the builder's output fits the evaluator ----------------------------------------------------------------

  /** Every snapshot is filed under the identity it carries. */
  predicate Registered(w: World) {
    forall id <- w.snapshots :: w.snapshots[id].live.identity == id
  }

  lemma {:induction false} CountedTwice(all: seq<Sourced>, i: nat, j: nat, id: Identity)
    requires i < j < |all| && all[i].actor.identity == id == all[j].actor.identity
    ensures Count(all, id) >= 2
  {
    if j < |all| - 1 {
      CountedTwice(all[..|all| - 1], i, j, id);
    } else {
      CountedOnce(all[..j], i, id);
    }
  }

  lemma {:induction false} CountedOnce(all: seq<Sourced>, i: nat, id: Identity)
    requires i < |all| && all[i].actor.identity == id
    ensures Count(all, id) >= 1
  {
    if i < |all| - 1 { CountedOnce(all[..|all| - 1], i, id); }
  }

  ghost predicate Increasing(ws: seq<Candidate>) {
    forall i, j :: 0 <= i < j < |ws| ==> CandidateKey(ws[i]) < CandidateKey(ws[j])
  }

  predicate Yields(w: World, r: BuildRequest, all: seq<Sourced>, s: Sourced, c: Candidate) {
    Count(all, s.actor.identity) == 1 && Consider(w, r, s) == Included && c == CandidateOf(w, r, s)
  }

  lemma {:induction false} WitnessesAreYielded(w: World, r: BuildRequest, all: seq<Sourced>, actors: seq<Sourced>)
    ensures forall c :: c in WitnessesAmong(w, r, all, actors) <==> exists s <- actors :: Yields(w, r, all, s, c)
  {
    hide Consider, CandidateOf, Count;
    if actors != [] {
      var most, last := actors[..|actors| - 1], actors[|actors| - 1];
      WitnessesAreYielded(w, r, all, most);
      assert actors == most + [last];
      forall c
        ensures c in WitnessesAmong(w, r, all, actors) <==> exists s <- actors :: Yields(w, r, all, s, c)
      {
        assert Yields(w, r, all, last, c) || !Yields(w, r, all, last, c);
        if s :| s in actors && Yields(w, r, all, s, c) { assert s in most || s == last; }
      }
    }
  }

  lemma YieldedIdentity(w: World, r: BuildRequest, all: seq<Sourced>, s: Sourced, c: Candidate)
    requires Registered(w) && Yields(w, r, all, s, c)
    ensures c.actor.identity == s.actor.identity
  {}

  /** Identities are strictly increasing, so none occurs twice. */
  lemma {:induction false} WitnessesIncrease(w: World, r: BuildRequest, all: seq<Sourced>, k: nat)
    requires Registered(w) && Sorted(all, InOrder) && k <= |all|
    ensures Increasing(WitnessesAmong(w, r, all, all[..k]))
  {
    hide Consider, CandidateOf, Count, Yields, Before, AtMost, CandidateKey, Registered, InOrder;
    if k > 0 {
      var most, last := all[..k - 1], all[k - 1];
      assert all[..k][..k - 1] == most;
      WitnessesIncrease(w, r, all, k - 1);
      WitnessesAreYielded(w, r, all, most);
      var before := WitnessesAmong(w, r, all, most);
      if Count(all, last.actor.identity) == 1 && Consider(w, r, last) == Included {
        forall i | 0 <= i < |before|
          ensures CandidateKey(before[i]) < CandidateKey(CandidateOf(w, r, last))
        {
          assert before[i] in before;
          var s :| s in most && Yields(w, r, all, s, before[i]);
          var m :| 0 <= m < k - 1 && most[m] == s;
          LaterIsGreater(w, r, all, m, k - 1, before[i]);
        }
      }
    }
  }

  lemma LaterIsGreater(w: World, r: BuildRequest, all: seq<Sourced>, i: nat, j: nat, c: Candidate)
    requires Registered(w) && Sorted(all, InOrder) && i < j < |all| && Yields(w, r, all, all[i], c)
    requires Count(all, all[j].actor.identity) == 1 && Consider(w, r, all[j]) == Included
    ensures CandidateKey(c) < CandidateKey(CandidateOf(w, r, all[j]))
  {
    hide Count, Before, AtMost;
    assert Yields(w, r, all, all[j], CandidateOf(w, r, all[j]));
    YieldedIdentity(w, r, all, all[i], c);
    YieldedIdentity(w, r, all, all[j], CandidateOf(w, r, all[j]));
    assert InOrder(all[i], all[j]);
    IdentityKeyOrder(all[i].actor.identity, all[j].actor.identity);
    if all[i].actor.identity == all[j].actor.identity {
      CountedTwice(all, i, j, all[i].actor.identity);
    }
  }

  /** With the same offender, victim and radius, and at most 1024 witnesses, a built list passes the checks of
      evaluate and every member is classified Eligible. */
  lemma BuiltListIsAccepted(w: World, r: BuildRequest, all: seq<Sourced>, p: Policy, n: Intent)
    requires Registered(w) && Sorted(all, InOrder)
    requires n.victim == r.victim && n.offender.position == r.offender.position
    requires forall a, b :: w.reach(a, b) == Inside ==> p.within(a, b)
    ensures var ws := WitnessesAmong(w, r, all, all);
            && (ValidWitnessList(ws) <==> |ws| <= MAX_WITNESSES)
            && (forall c <- ws :: Eligibility(p, n, c) == ELIGIBLE)
            && CrimeJudgement.Sort(ws) == ws
  {
    hide Consider, CandidateOf, Count, Before, AtMost, CandidateKey, Eligibility, ValidCandidate, InOrder, Registered;
    var ws := WitnessesAmong(w, r, all, all);
    assert all[..|all|] == all;
    WitnessesIncrease(w, r, all, |all|);
    WitnessesAreYielded(w, r, all, all);
    forall c <- ws
      ensures ValidCandidate(c) && Eligibility(p, n, c) == ELIGIBLE
    {
      var s :| s in all && Yields(w, r, all, s, c);
      HasSnapshot(w, s, r);
      IncludedIsEligible(w, r, s, p, n);
    }
    assert Distinct(ws) by {
      forall i, j | 0 <= i < j < |ws|
        ensures ws[i].actor.identity != ws[j].actor.identity
      {
        assert CandidateKey(ws[i]) < CandidateKey(ws[j]);
        KeyIsIdentity(ws[i], ws[j]);
      }
    }
    CrimeJudgement.SortSorts(ws);
    CrimeJudgement.SortedUnique(ws, CrimeJudgement.Sort(ws));
  }

  lemma HasSnapshot(w: World, s: Sourced, r: BuildRequest)
    requires Registered(w) && Consider(w, r, s) == Included
    ensures s.actor.identity in w.snapshots && w.snapshots[s.actor.identity].live.identity == s.actor.identity
  {}

  // ----- who is a witness -------------------------------------------------------------------------------------

  /** A cell of the request lists the actor; or it is the victim, looked up directly because no cell lists it. */
  ghost predicate Offered(w: World, r: BuildRequest, s: Sourced) {
    || ListedIn(w, r.cells, s)
    || (&& r.victim.Some? && w.findActor(r.victim.value) == Some(s.actor) && s.enumeratedCellId == s.actor.cellId
        && forall t :: ListedIn(w, r.cells, t) ==> t.actor.identity != r.victim.value)
  }

  ghost predicate ListedIn(w: World, cells: seq<Bytes>, s: Sourced) {
    s.enumeratedCellId in cells && s.actor in w.actorsInCell(s.enumeratedCellId)
  }

  lemma {:induction false} ListedMeaning(w: World, cells: seq<Bytes>)
    ensures forall s :: s in Listed(w, cells) <==> ListedIn(w, cells, s)
  {
    if cells != [] {
      var most, cell := cells[..|cells| - 1], cells[|cells| - 1];
      ListedMeaning(w, most);
      assert cells == most + [cell];
      forall s
        ensures s in SourcedAll(cell, w.actorsInCell(cell)) <==> s.enumeratedCellId == cell && s.actor in w.actorsInCell(cell)
      {
        if s.enumeratedCellId == cell && s.actor in w.actorsInCell(cell) {
          var k :| 0 <= k < |w.actorsInCell(cell)| && w.actorsInCell(cell)[k] == s.actor;
          assert SourcedAll(cell, w.actorsInCell(cell))[k] == s;
        }
      }
    }
  }

  lemma OfferedMeaning(w: World, r: BuildRequest)
    ensures forall s :: s in WithVictim(w, r, Listed(w, r.cells)) <==> Offered(w, r, s)
  {
    hide Listed;
    ListedMeaning(w, r.cells);
    var listed := Listed(w, r.cells);
    if r.victim.Some? && Enumerated(listed, r.victim.value) {
      var t :| t in listed && t.actor.identity == r.victim.value;
      assert ListedIn(w, r.cells, t);
    }
  }

  /** The identity stands in the list once. */
  ghost predicate Once(all: seq<Sourced>, id: Identity) {
    forall i, j :: 0 <= i < |all| && 0 <= j < |all| && all[i].actor.identity == id && all[j].actor.identity == id ==> i == j
  }

  lemma {:induction false} CountMeaning(all: seq<Sourced>, id: Identity)
    ensures Count(all, id) == 0 <==> forall s <- all :: s.actor.identity != id
    ensures Count(all, id) <= 1 <==> Once(all, id)
  {
    if all != [] {
      var most, last := all[..|all| - 1], all[|all| - 1];
      CountMeaning(most, id);
      assert all == most + [last];
      if Once(all, id) { assert Once(most, id); }
      if Once(most, id) && last.actor.identity != id { assert Once(all, id); }
      if last.actor.identity == id && Count(most, id) > 0 {
        var s :| s in most && s.actor.identity == id;
        var i :| 0 <= i < |most| && most[i] == s;
        assert all[i].actor.identity == id && all[|most|].actor.identity == id;
      }
    }
  }

  /** The witnesses are exactly the actors offered for the event that stand in the list once and qualify, each as the
    candidate that describes it. */
  lemma WitnessesAre(w: World, r: BuildRequest, all: seq<Sourced>)
    requires multiset(all) == multiset(WithVictim(w, r, Listed(w, r.cells)))
    ensures forall c :: c in WitnessesAmong(w, r, all, all) <==>
              exists s :: Offered(w, r, s) && Once(all, s.actor.identity) && Qualifies(w, r, s) && Describes(w, s, c)
  {
    hide Consider, CandidateOf, Count, Offered, Once, Qualifies, Describes, WitnessesAmong, Listed, WithVictim;
    WitnessesAreYielded(w, r, all, all);
    OfferedMeaning(w, r);
    var gathered := WithVictim(w, r, Listed(w, r.cells));
    forall s
      ensures s in all <==> Offered(w, r, s)
    {
      assert s in multiset(all) <==> s in multiset(gathered);
    }
    forall s, c
      ensures s in all && Yields(w, r, all, s, c) <==>
                Offered(w, r, s) && Once(all, s.actor.identity) && Qualifies(w, r, s) && Describes(w, s, c)
    {
      CountMeaning(all, s.actor.identity);
      IncludedMeaning(w, r, s);
    }
  }

  // ----- the listing order does not matter ------------------------------------------------------------------------

  lemma {:induction false} CountWithout(all: seq<Sourced>, k: nat, id: Identity)
    requires k < |all|
    ensures Count(all, id) == Count(all[..k] + all[k + 1..], id) + if all[k].actor.identity == id then 1 else 0
  {
    var n := |all| - 1;
    if k < n {
      CountWithout(all[..n], k, id);
      var rest := all[..k] + all[k + 1..];
      assert rest[..n - 1] == all[..n][..k] + all[..n][k + 1..];
    } else {
      assert all[..k] + all[k + 1..] == all[..n];
    }
  }

  /** The last entry of one arrangement, found in another. */
  lemma TakeMatching(a: seq<Sourced>, b: seq<Sourced>) returns (k: nat)
    requires a != [] && multiset(a) == multiset(b)
    ensures k < |b| && b[k] == a[|a| - 1] && multiset(a[..|a| - 1]) == multiset(b[..k] + b[k + 1..])
  {
    var last := a[|a| - 1];
    assert a == a[..|a| - 1] + [last];
    assert last in multiset(a) && last in multiset(b);
    k :| 0 <= k < |b| && b[k] == last;
    S.TakenCount(b, k);
    assert multiset(a[..|a| - 1]) == multiset(a) - multiset{last};
    assert multiset(S.Without(b, k)) == multiset(b) - multiset{last};
  }

  lemma {:induction false} CountIgnoresOrder(a: seq<Sourced>, b: seq<Sourced>, id: Identity)
    requires multiset(a) == multiset(b)
    ensures Count(a, id) == Count(b, id)
  {
    assert |multiset(a)| == |a| && |multiset(b)| == |b|;
    if a != [] {
      var k := TakeMatching(a, b);
      CountIgnoresOrder(a[..|a| - 1], b[..k] + b[k + 1..], id);
      CountWithout(b, k, id);
    }
  }

  /** Any two sorted arrangements of the same actors give the same witnesses. */
  lemma WitnessesIgnoreOrder(w: World, r: BuildRequest, a: seq<Sourced>, b: seq<Sourced>)
    requires Registered(w) && Sorted(a, InOrder) && Sorted(b, InOrder) && multiset(a) == multiset(b)
    ensures WitnessesAmong(w, r, a, a) == WitnessesAmong(w, r, b, b)
  {
    hide Consider, CandidateOf, Count, Before, AtMost, CandidateKey, InOrder, Registered, WitnessesAmong;
    var x, y := WitnessesAmong(w, r, a, a), WitnessesAmong(w, r, b, b);
    assert a[..|a|] == a && b[..|b|] == b;
    WitnessesIncrease(w, r, a, |a|);
    WitnessesIncrease(w, r, b, |b|);
    WitnessesAreYielded(w, r, a, a);
    WitnessesAreYielded(w, r, b, b);
    forall s, c
      ensures s in a && Yields(w, r, a, s, c) <==> s in b && Yields(w, r, b, s, c)
    {
      assert s in a <==> s in multiset(a);
      assert s in b <==> s in multiset(b);
      CountIgnoresOrder(a, b, s.actor.identity);
    }
    assert forall c :: c in x <==> c in y;
    StrictlyIncreasingIsCanonical(x, y);
  }

  lemma StrictlyIncreasingIsCanonical(x: seq<Candidate>, y: seq<Candidate>)
    requires Increasing(x) && Increasing(y)
    requires forall c :: c in x <==> c in y
    ensures x == y
  {
    hide CandidateKey;
    forall s: seq<Candidate> | s == x || s == y
      ensures NoRepeats(s)
    {
      forall i, j | 0 <= i < j < |s|
        ensures s[i] != s[j]
      {
        assert CandidateKey(s[i]) < CandidateKey(s[j]);
      }
    }
    S.OnceEach(x);
    S.OnceEach(y);
    assert multiset(x) == multiset(y);
    forall i, j | 0 <= i < j < |x|
      ensures x[i].actor.identity != x[j].actor.identity
    {
      KeyIsIdentity(x[i], x[j]);
    }
    CrimeJudgement.SortedUnique(x, y);
  }

  lemma {:induction false} ListedIgnoresOrder(v: World, w: World, cells: seq<Bytes>)
    requires forall cell <- cells :: multiset(v.actorsInCell(cell)) == multiset(w.actorsInCell(cell))
    ensures multiset(Listed(v, cells)) == multiset(Listed(w, cells))
  {
    if cells != [] {
      var cell := cells[|cells| - 1];
      ListedIgnoresOrder(v, w, cells[..|cells| - 1]);
      SourcedIgnoresOrder(cell, v.actorsInCell(cell), w.actorsInCell(cell));
    }
  }

  lemma {:induction false} SourcedCount(cell: Bytes, actors: seq<Actor>, s: Sourced)
    ensures multiset(SourcedAll(cell, actors))[s] == if s.enumeratedCellId == cell then multiset(actors)[s.actor] else 0
  {
    if actors != [] {
      var n := |actors| - 1;
      SourcedCount(cell, actors[..n], s);
      assert actors == actors[..n] + [actors[n]];
      assert SourcedAll(cell, actors) == SourcedAll(cell, actors[..n]) + [Sourced(cell, actors[n])];
    }
  }

  lemma SourcedIgnoresOrder(cell: Bytes, a: seq<Actor>, b: seq<Actor>)
    requires multiset(a) == multiset(b)
    ensures multiset(SourcedAll(cell, a)) == multiset(SourcedAll(cell, b))
  {
    var x, y := multiset(SourcedAll(cell, a)), multiset(SourcedAll(cell, b));
    forall s
      ensures x[s] == y[s]
    {
      SourcedCount(cell, a, s);
      SourcedCount(cell, b, s);
    }
  }

  lemma VictimIgnoresOrder(v: World, w: World, r: BuildRequest, a: seq<Sourced>, b: seq<Sourced>)
    requires v.findActor == w.findActor && multiset(a) == multiset(b)
    ensures multiset(WithVictim(v, r, a)) == multiset(WithVictim(w, r, b))
  {
    forall id
      ensures Enumerated(a, id) <==> Enumerated(b, id)
    {
      forall s
        ensures s in a <==> s in b
      {
        assert s in multiset(a) <==> s in multiset(b);
      }
    }
  }

  lemma {:induction false} SameWorld(v: World, w: World, r: BuildRequest, all: seq<Sourced>, actors: seq<Sourced>)
    requires v.snapshots == w.snapshots && v.reach == w.reach
    ensures WitnessesAmong(v, r, all, actors) == WitnessesAmong(w, r, all, actors)
  {
    hide Count, Consider, CandidateOf;
    if actors != [] {
      SameConsideration(v, w, r, actors[|actors| - 1]);
      SameWorld(v, w, r, all, actors[..|actors| - 1]);
    }
  }

  lemma SameConsideration(v: World, w: World, r: BuildRequest, s: Sourced)
    requires v.snapshots == w.snapshots && v.reach == w.reach
    ensures Consider(v, r, s) == Consider(w, r, s)
    ensures Consider(v, r, s) == Included ==> CandidateOf(v, r, s) == CandidateOf(w, r, s)
  {
    hide Effective, MakeLive;
    SameReason(v, w, r, s);
    hide Consider;
  }

  lemma SameReason(v: World, w: World, r: BuildRequest, s: Sourced)
    requires v.snapshots == w.snapshots && v.reach == w.reach
    ensures Consider(v, r, s) == Consider(w, r, s)
  {
    hide Effective, MakeLive, Identity.IsValid, Vector.IsFinite;
    if s.actor.identity in w.snapshots {
      var live := MakeLive(w.snapshots[s.actor.identity], s.actor.bootWeight);
      assert v.reach(r.offender.position, live.position) == w.reach(r.offender.position, live.position);
    }
  }

  /** The witnesses do not depend on the order in which the cells list their actors, nor on how the sort
      arranges equal entries: whatever Build made of either listing, the witnesses are the same. */
  lemma BuildIgnoresListingOrder(v: World, w: World, r: BuildRequest, a: seq<Sourced>, b: seq<Sourced>)
    requires v == w.(actorsInCell := v.actorsInCell) && Registered(w)
    requires forall cell <- r.cells :: multiset(v.actorsInCell(cell)) == multiset(w.actorsInCell(cell))
    requires Sorted(a, InOrder) && multiset(a) == multiset(WithVictim(v, r, Listed(v, r.cells)))
    requires Sorted(b, InOrder) && multiset(b) == multiset(WithVictim(w, r, Listed(w, r.cells)))
    ensures WitnessesAmong(v, r, a, a) == WitnessesAmong(w, r, b, b)
  {
    hide Registered, WitnessesAmong, Listed, WithVictim, InOrder;
    ListedIgnoresOrder(v, w, r.cells);
    VictimIgnoresOrder(v, w, r, Listed(v, r.cells), Listed(w, r.cells));
    SameWorld(v, w, r, a, a);
    WitnessesIgnoreOrder(w, r, a, b);
  }
}
