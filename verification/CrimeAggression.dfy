/** calculateCrimeAggression and calculateGuardCrimeEnforcement, in exact arithmetic. */
module CrimeAggression {
  import opened ByteBuffers
  import opened CrimeTypes

  datatype Position = Finite(x: real, y: real, z: real) | NotFinite

  datatype FightPolicy = FightPolicy(
    fightTrespass: i32, fightPickpocket: i32, fightAttack: i32, fightAttacking: i32, fightKilling: i32, fightStealing: i32,
    dispositionTrespass: real, dispositionPickpocket: real, dispositionAttack: real, dispositionAttacking: real,
    dispositionKilling: real, dispositionStealing: real,
    fightDispositionMultiplier: real, fightDistanceBase: i32, fightDistanceMultiplier: real)

  /** `distance` is the square root that the code takes: see IsDistance. */
  datatype Input = Input(crime: u8, value: i64, victim: bool, baseFight: i32, alarm: i32, witnessAt: Position, offenderAt: Position)

  datatype Fight = Fight(
    evaluated: bool, combat: bool, baseFight: i32, finalFight: i32, crimeFight: int, dispositionTerm: real,
    dispositionBias: real, distance: real, distanceBias: real, alarmTerm: real, unclamped: real, fightTerm: real)

  predicate IsDistance(d: real, a: Position, b: Position)
    requires a.Finite? && b.Finite?
  {
    d >= 0.0 && d * d == (a.x - b.x) * (a.x - b.x) + (a.y - b.y) * (a.y - b.y) + (a.z - b.z) * (a.z - b.z)
  }

  predicate InBounds(n: Input) {
    && 0 <= n.baseFight <= 100 && 0 <= n.alarm <= 100 && 0 <= n.value <= MAX_I32
    && n.witnessAt.Finite? && n.offenderAt.Finite?
  }

  /** The fight value and the disposition term of a crime. */
  function CrimeTerms(n: Input, p: FightPolicy): (int, real) {
    if n.crime == TRESPASS then (p.fightTrespass, p.dispositionTrespass)
    else if n.crime == PICKPOCKET then (if n.victim then p.fightPickpocket * 4 else p.fightPickpocket, p.dispositionPickpocket)
    else if n.crime == ASSAULT then (if n.victim then p.fightAttack else p.fightAttacking,
                                     if n.victim then p.dispositionAttacking else p.dispositionAttack)
    else if n.crime == MURDER then (p.fightKilling, p.dispositionKilling)
    else (p.fightStealing * n.value, p.dispositionStealing * n.value as real)
  }

  predicate Evaluated(n: Input, p: FightPolicy) {
    && InBounds(n) && THEFT <= n.crime <= MURDER
    && -0x8000_0000 <= CrimeTerms(n, p).0 <= MAX_I32
  }

  /** How much of the alarm counts: all of it, but for a pickpocket none to bystanders, and to a victim
      without any alarm as much as to one with full alarm. */
  function AlarmTerm(n: Input): real {
    if n.crime == PICKPOCKET && n.victim && n.alarm == 0 then 1.0
    else if n.crime == PICKPOCKET && !n.victim then 0.0
    else n.alarm as real / 100.0
  }

  /** What the witness would fight with, before the alarm is taken into account. */
  function Raw(n: Input, p: FightPolicy, distance: real): real {
    CrimeTerms(n, p).0 as real + (50.0 - CrimeTerms(n, p).1) * p.fightDispositionMultiplier
    + (p.fightDistanceBase as real - p.fightDistanceMultiplier * distance)
  }

  /** The decision, said directly. */
  predicate Fights(n: Input, p: FightPolicy, distance: real) {
    Evaluated(n, p) && (n.baseFight == 100 || n.baseFight as real + Raw(n, p, distance) * AlarmTerm(n) >= 100.0)
  }

  function Trunc(r: real): int { if r < 0.0 then -((-r).Floor) else r.Floor }

  method CalculateCrimeAggression(n: Input, p: FightPolicy, distance: real) returns (r: Fight)
    requires n.witnessAt.Finite? && n.offenderAt.Finite? ==> IsDistance(distance, n.witnessAt, n.offenderAt)
    ensures r.evaluated <==> Evaluated(n, p)
    ensures r.combat <==> Fights(n, p, distance)
    ensures r.baseFight == n.baseFight && r.finalFight == if r.combat then 100 else n.baseFight
    ensures r.evaluated ==>
              && r.crimeFight == CrimeTerms(n, p).0 && r.dispositionTerm == CrimeTerms(n, p).1
              && r.distance == distance && r.alarmTerm == AlarmTerm(n) && r.unclamped == Raw(n, p, distance) * AlarmTerm(n)
              && 0.0 <= r.fightTerm <= (100 - n.baseFight) as real
              && (r.unclamped <= 0.0 ==> r.fightTerm == 0.0)
              && (0.0 <= r.unclamped <= (100 - n.baseFight) as real ==> r.fightTerm == r.unclamped)
  {
    hide CrimeTerms, IsDistance;
    r := Fight(false, false, n.baseFight, n.baseFight, 0, 0.0, 0.0, 0.0, 0.0, 0.0, 0.0, 0.0);
    if n.baseFight < 0 || n.baseFight > 100 || n.alarm < 0 || n.alarm > 100 || n.value < 0 || n.value > MAX_I32
       || n.witnessAt.NotFinite? || n.offenderAt.NotFinite? {
      return;
    }
    if n.crime < THEFT || n.crime > MURDER { return; }
    var (crimeFight, dispositionTerm) := CrimeTerms(n, p);
    r := r.(dispositionTerm := dispositionTerm);
    if crimeFight < -0x8000_0000 || crimeFight > MAX_I32 { return; }
    var alarmTerm := n.alarm as real / 100.0;
    if n.crime == PICKPOCKET {
      if n.victim && alarmTerm == 0.0 {
        alarmTerm := 1.0;
      } else if !n.victim {
        alarmTerm := 0.0;
      }
    }
    assert alarmTerm == AlarmTerm(n);
    var dispositionBias := (50.0 - dispositionTerm) * p.fightDispositionMultiplier;
    var distanceBias := p.fightDistanceBase as real - p.fightDistanceMultiplier * distance;
    var fightTerm := crimeFight as real;
    fightTerm := fightTerm + dispositionBias;
    fightTerm := fightTerm + distanceBias;
    fightTerm := fightTerm * alarmTerm;
    var unclamped := fightTerm;
    var combat;
    fightTerm, combat := Clamp(n.baseFight, unclamped);
    r := Fight(true, combat, n.baseFight, n.baseFight, crimeFight, dispositionTerm, dispositionBias, distance, distanceBias,
               alarmTerm, unclamped, fightTerm);
    if combat { r := r.(finalFight := n.baseFight + Trunc(fightTerm)); }
  }

  /** The end of the calculation: the fight term stays between nothing and what is missing to 100. */
  method Clamp(baseFight: i32, unclamped: real) returns (fightTerm: real, combat: bool)
    requires 0 <= baseFight <= 100
    ensures 0.0 <= fightTerm <= (100 - baseFight) as real
    ensures unclamped <= 0.0 ==> fightTerm == 0.0
    ensures 0.0 <= unclamped <= (100 - baseFight) as real ==> fightTerm == unclamped
    ensures combat <==> baseFight == 100 || baseFight as real + unclamped >= 100.0
    ensures combat ==> fightTerm == (100 - baseFight) as real
  {
    fightTerm := unclamped;
    if baseFight as real + fightTerm > 100.0 { fightTerm := (100 - baseFight) as real; }
    if fightTerm < 0.0 { fightTerm := 0.0; }
    combat := baseFight as real + fightTerm >= 100.0;
  }

  /** What the crime of the input is worth to a fight, crime by crime: a stolen good counts by its value, the victim of a
    pickpocket four times, and the victim of an assault has the two attack settings the other way round than a bystander. */
  ghost predicate Worth(n: Input, p: FightPolicy, fight: int, disposition: real) {
    match n.crime
    case 1 => fight == p.fightStealing * n.value && disposition == p.dispositionStealing * n.value as real
    case 2 => fight == (if n.victim then 4 else 1) * p.fightPickpocket && disposition == p.dispositionPickpocket
    case 3 => fight == p.fightTrespass && disposition == p.dispositionTrespass
    case 4 =>
      if n.victim then fight == p.fightAttack && disposition == p.dispositionAttacking
      else fight == p.fightAttacking && disposition == p.dispositionAttack
    case 5 => fight == p.fightKilling && disposition == p.dispositionKilling
    case _ => false
  }

  /** How much of it the alarm lets count. */
  ghost predicate Counts(n: Input, share: real) {
    if n.crime == 2 && !n.victim then share == 0.0
    else if n.crime == 2 && n.alarm == 0 then share == 1.0
    else share * 100.0 == n.alarm as real
  }

  /** The decision from these terms alone: an input in bounds, for a crime whose fight value fits an int32, ends in a fight
    exactly when the witness has a fight of 100 already or the terms add up to it. */
  lemma FightMeaning(n: Input, p: FightPolicy, distance: real, fight: int, disposition: real, share: real)
    requires Counts(n, share)
    ensures Worth(n, p, fight, disposition) ==>
              (Fights(n, p, distance) <==>
                && 0 <= n.baseFight <= 100 && 0 <= n.alarm <= 100 && 0 <= n.value <= 0x7fff_ffff
                && n.witnessAt.Finite? && n.offenderAt.Finite? && -0x8000_0000 <= fight <= 0x7fff_ffff
                && (n.baseFight == 100
                    || n.baseFight as real
                       + (fight as real + (50.0 - disposition) * p.fightDispositionMultiplier
                          + (p.fightDistanceBase as real - p.fightDistanceMultiplier * distance)) * share >= 100.0))
    ensures Fights(n, p, distance) ==> Worth(n, p, CrimeTerms(n, p).0, CrimeTerms(n, p).1)
  {
    WorthOf(n, p, fight, disposition);
    assert share == AlarmTerm(n);
    hide CrimeTerms, Worth, AlarmTerm;
  }

  lemma WorthOf(n: Input, p: FightPolicy, fight: int, disposition: real)
    ensures THEFT <= n.crime <= MURDER ==> (Worth(n, p, fight, disposition) <==> CrimeTerms(n, p) == (fight, disposition))
    ensures Worth(n, p, fight, disposition) ==> THEFT <= n.crime <= MURDER
    ensures THEFT <= n.crime <= MURDER ==> Worth(n, p, CrimeTerms(n, p).0, CrimeTerms(n, p).1)
  {
  }

  // ----- what the decision depends on -------------------------------------------------------------------------

  lemma ScaledBy(a: real, b: real, k: real)
    requires a <= b && k >= 0.0
    ensures a * k <= b * k
  {}

  /** Moving away never starts a fight. */
  lemma FartherIsNotWorse(n: Input, p: FightPolicy, near: real, far: real)
    requires near <= far && p.fightDistanceMultiplier >= 0.0 && Fights(n, p, far)
    ensures Fights(n, p, near)
  {
    ScaledBy(near, far, p.fightDistanceMultiplier);
    assert Raw(n, p, far) <= Raw(n, p, near);
    ScaledBy(Raw(n, p, far), Raw(n, p, near), AlarmTerm(n));
  }

  /** The victim of a pickpocket without any alarm, raised to an alarm that is not full. */
  predicate CalmedVictim(n: Input, alarm: i32) { n.crime == PICKPOCKET && n.victim && n.alarm == 0 && 0 < alarm < 100 }

  /** Raising the alarm never stops a fight, except for such a victim. */
  lemma MoreAlarmIsNotBetter(n: Input, p: FightPolicy, distance: real, alarm: i32)
    requires n.alarm <= alarm <= 100 && Fights(n, p, distance) && !CalmedVictim(n, alarm)
    ensures Fights(n.(alarm := alarm), p, distance)
  {
    var m := n.(alarm := alarm);
    var raw := Raw(n, p, distance);
    assert Raw(m, p, distance) == raw && AlarmTerm(n) <= AlarmTerm(m);
    if n.baseFight < 100 { ScaledStays(n.baseFight as real, raw, AlarmTerm(n), AlarmTerm(m)); }
  }

  lemma ScaledStays(base: real, raw: real, was: real, now: real)
    requires base < 100.0 && 0.0 <= was <= now && base + raw * was >= 100.0
    ensures base + raw * now >= 100.0
  {
    if raw <= 0.0 { ScaledBy(raw, 0.0, was); }
    ScaledBy(was, now, raw);
  }

  /** In the exceptional case some fight stops. */
  lemma UnalarmedVictimFightsMore(alarm: i32) returns (n: Input, p: FightPolicy, distance: real)
    requires 0 < alarm < 100
    ensures n.crime == PICKPOCKET && n.victim && n.alarm == 0
    ensures Fights(n, p, distance) && !Fights(n.(alarm := alarm), p, distance)
  {
    p := FightPolicy(0, 25, 0, 0, 0, 0, 0.0, 0.0, 0.0, 0.0, 0.0, 0.0, 0.0, 0, 0.0);
    n := Input(PICKPOCKET, 0, true, 0, 0, Finite(0.0, 0.0, 0.0), Finite(0.0, 0.0, 0.0));
    distance := 0.0;
    assert Raw(n, p, 0.0) == 100.0 && Fights(n, p, 0.0);
    assert Raw(n.(alarm := alarm), p, 0.0) == 100.0 && !Fights(n.(alarm := alarm), p, 0.0);
  }

  /** Every fight of such a witness goes on when the alarm is raised from one value to another. */
  ghost predicate FightsGoOn(crime: u8, victim: bool, was: i32, now: i32) {
    forall n: Input, p: FightPolicy, distance: real ::
      n.crime == crime && n.victim == victim && n.alarm == was && Fights(n, p, distance) ==> Fights(n.(alarm := now), p, distance)
  }

  /** Raising the alarm never stops a fight, exactly but for the victim of a pickpocket that had no alarm at all
      and does not get the full one. */
  lemma AlarmNeverCalms(crime: u8, victim: bool, was: i32, now: i32)
    requires 0 <= was <= now <= 100
    ensures FightsGoOn(crime, victim, was, now) <==> !(crime == PICKPOCKET && victim && was == 0 && 0 < now < 100)
  {
    if crime == PICKPOCKET && victim && was == 0 && 0 < now < 100 {
      var n, p, distance := UnalarmedVictimFightsMore(now);
      assert Fights(n, p, distance) && !Fights(n.(alarm := now), p, distance);
    } else {
      forall n: Input, p: FightPolicy, distance: real | n.crime == crime && n.victim == victim && n.alarm == was && Fights(n, p, distance)
        ensures Fights(n.(alarm := now), p, distance)
      {
        MoreAlarmIsNotBetter(n, p, distance, now);
      }
    }
  }

  // ----- guards -----------------------------------------------------------------------------------------------

  datatype Enforcement = NoEnforcement | Arrest | Combat

  function CalculateGuardCrimeEnforcement(bounty: i32, threshold: i32, multiplier: i32): Enforcement {
    if bounty < 0 || threshold <= 0 || multiplier <= 0 || bounty < threshold then NoEnforcement
    else if bounty >= threshold * multiplier then Combat else Arrest
  }

  /** Below the threshold nothing happens, and from its multiple on there is a fight, as long as both settings mean
    something. */
  lemma EnforcementMeaning(bounty: i32, threshold: i32, multiplier: i32)
    ensures var e := CalculateGuardCrimeEnforcement(bounty, threshold, multiplier);
            && (e != NoEnforcement <==> threshold > 0 && multiplier > 0 && bounty >= threshold)
            && (e == Combat <==> threshold > 0 && multiplier > 0 && bounty >= threshold * multiplier)
  {
    if threshold > 0 && multiplier > 0 { AtLeastOnce(threshold, multiplier); }
  }

  lemma AtLeastOnce(x: int, y: int)
    requires x > 0 && y > 0
    ensures x * y >= x
  {
  }

  function Severity(e: Enforcement): nat {
    match e case NoEnforcement => 0 case Arrest => 1 case Combat => 2
  }

  /** A greater bounty is never met with less. */
  lemma GreaterBountyIsWorse(bounty: i32, more: i32, threshold: i32, multiplier: i32)
    requires bounty <= more
    ensures Severity(CalculateGuardCrimeEnforcement(bounty, threshold, multiplier))
            <= Severity(CalculateGuardCrimeEnforcement(more, threshold, multiplier))
  {}
}
