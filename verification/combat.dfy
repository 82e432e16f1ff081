/** The combat component: an attack range in grid units, damage, and a
    cooldown. Each frame the cooldown runs down; when it has run out and the
    component knows its scene, the nearest living enemy in range becomes the
    target and is attacked, which restarts the cooldown and calls the attack
    callback. Euclidean distance (a square root) is the parameter `dist`; the
    callback's calls are recorded in `attacks`. */
module CombatComponent {
  import opened Common
  import TeamComponent
  import HealthComponent

  /** `Float.MAX_VALUE`, the starting best distance of the target search. */
  const MaxFloat: real := 340282346638528859811704183484516925440.0

  /** `isInRange`: both objects have a transform and are at most the range
      apart, measured in cells. */
  predicate InRange(owner: Option<GameObj>, target: Option<GameObj>, attackRange: real, dist: (Vec2, Vec2) -> real)
  {
    owner.Some? && target.Some? && owner.value.transform.Some? && target.value.transform.Some?
    && dist(owner.value.transform.value, target.value.transform.value) / CellPixels <= attackRange
  }

  /** An object `findTarget` may choose for `me`: another active object of the
      opposing team, with a transform and a living health component, within
      range. `me` needs a transform and a team. */
  predicate Candidate(me: GameObj, o: GameObj, attackRange: real, dist: (Vec2, Vec2) -> real)
  {
    me.transform.Some? && me.team.Some?
    && o.oid != me.oid && o.active
    && TeamComponent.IsEnemyOf(me.team.value, o.team)
    && o.transform.Some? && o.health.Some? && o.health.value.Alive()
    && dist(me.transform.value, o.transform.value) / CellPixels <= attackRange
  }

  /** Every object the target search may choose is in range by `isInRange`. */
  lemma CandidateInRange(me: GameObj, o: GameObj, attackRange: real, dist: (Vec2, Vec2) -> real)
    requires Candidate(me, o, attackRange, dist)
    ensures InRange(Some(me), Some(o), attackRange, dist)
    ensures o.oid != me.oid && o.active && o.health.value.Alive()
  {
  }

  /** The distance from `me` to a candidate. */
  function Distance(me: GameObj, o: GameObj, dist: (Vec2, Vec2) -> real): real
    requires me.transform.Some? && o.transform.Some?
  {
    dist(me.transform.value, o.transform.value)
  }

  /** The index of the nearest candidate among the first `n` objects, the
      earliest among equally near ones, counting only distances below
      `Float.MAX_VALUE`; none when there is no such candidate. */
  function NearestUpTo(objs: seq<GameObj>, me: GameObj, attackRange: real, dist: (Vec2, Vec2) -> real, n: nat): (r: Option<nat>)
    requires n <= |objs| && me.transform.Some? && me.team.Some?
    ensures r.Some? ==> r.value < n && Candidate(me, objs[r.value], attackRange, dist)
                        && Distance(me, objs[r.value], dist) < MaxFloat
    ensures r.Some? ==> forall j :: 0 <= j < n && Candidate(me, objs[j], attackRange, dist) ==>
                          Distance(me, objs[r.value], dist) <= Distance(me, objs[j], dist)
                          && (j < r.value ==> Distance(me, objs[r.value], dist) < Distance(me, objs[j], dist))
    ensures r.None? ==> forall j :: 0 <= j < n && Candidate(me, objs[j], attackRange, dist) ==>
                          Distance(me, objs[j], dist) >= MaxFloat
  {
    if n == 0 then None
    else
      var prev := NearestUpTo(objs, me, attackRange, dist, n - 1);
      var closest := if prev.Some? then Distance(me, objs[prev.value], dist) else MaxFloat;
      if Candidate(me, objs[n - 1], attackRange, dist) && Distance(me, objs[n - 1], dist) < closest
      then Some(n - 1)
      else prev
  }

  /** What `findTarget` finds for `owner` in a scene holding `objs`: nothing
      without an owner, or without the owner's transform or team. */
  function SearchResult(objs: seq<GameObj>, owner: Option<GameObj>, attackRange: real, dist: (Vec2, Vec2) -> real): Option<nat>
  {
    if owner.None? || owner.value.transform.None? || owner.value.team.None? then None
    else NearestUpTo(objs, owner.value, attackRange, dist, |objs|)
  }

  /** The identity of the object the search picks, if any. */
  function SearchTarget(objs: seq<GameObj>, owner: Option<GameObj>, attackRange: real, dist: (Vec2, Vec2) -> real): (r: Option<nat>)
    ensures r.Some? ==> owner.Some? && exists j :: 0 <= j < |objs| && objs[j].oid == r.value
                                                   && Candidate(owner.value, objs[j], attackRange, dist)
    ensures r.None? <==> SearchResult(objs, owner, attackRange, dist).None?
  {
    var f := SearchResult(objs, owner, attackRange, dist);
    if f.Some? then Some(objs[f.value].oid) else None
  }

  class CombatComponent {
    var attackRange: real
    var attackDamage: real
    var attackCooldown: real
    var currentCooldown: real
    /** The current target, by object identity. */
    var target: Option<nat>
    var hasScene: bool
    var hasCallback: bool
    /** The calls of the attack callback so far: attacker and target. */
    var attacks: seq<(Option<nat>, nat)>

    /** A new component is ready to attack at once. */
    constructor(attackRange: real, attackDamage: real, attackCooldown: real)
      ensures this.attackRange == attackRange && this.attackDamage == attackDamage
      ensures this.attackCooldown == attackCooldown && currentCooldown == 0.0 && CanAttack()
      ensures target.None? && !hasScene && !hasCallback && attacks == []
    {
      this.attackRange := attackRange;
      this.attackDamage := attackDamage;
      this.attackCooldown := attackCooldown;
      currentCooldown := 0.0;
      target := None;
      hasScene := false;
      hasCallback := false;
      attacks := [];
    }

    predicate CanAttack()
      reads this
    {
      currentCooldown <= 0.0
    }

    /** `findTarget` over the scene's objects for the owner `owner`: the index
        of the nearest candidate, the earliest one among equally near ones; none
        without a scene, an owner, or the owner's transform or team. */
    method FindTarget(objs: seq<GameObj>, owner: Option<GameObj>, dist: (Vec2, Vec2) -> real) returns (r: Option<nat>)
      ensures !hasScene || owner.None? || owner.value.transform.None? || owner.value.team.None? ==> r.None?
      ensures r.Some? ==> r.value < |objs| && owner.Some? && Candidate(owner.value, objs[r.value], attackRange, dist)
      ensures r.Some? ==> Distance(owner.value, objs[r.value], dist) < MaxFloat
      ensures r.Some? ==> forall j :: 0 <= j < |objs| && Candidate(owner.value, objs[j], attackRange, dist) ==>
                            Distance(owner.value, objs[r.value], dist) <= Distance(owner.value, objs[j], dist)
                            && (j < r.value ==> Distance(owner.value, objs[r.value], dist) < Distance(owner.value, objs[j], dist))
      ensures r.None? && hasScene && owner.Some? ==>
                forall j :: 0 <= j < |objs| && Candidate(owner.value, objs[j], attackRange, dist) ==>
                  Distance(owner.value, objs[j], dist) >= MaxFloat
      ensures r == if hasScene then SearchResult(objs, owner, attackRange, dist) else None
    {
      if !hasScene || owner.None? {
        return None;
      }
      var me := owner.value;
      if me.transform.None? || me.team.None? {
        return None;
      }
      r := None;
      var closest := MaxFloat;
      var i := 0;
      while i < |objs|
        invariant 0 <= i <= |objs|
        invariant r.Some? ==> r.value < i && Candidate(me, objs[r.value], attackRange, dist)
                              && closest == Distance(me, objs[r.value], dist)
        invariant r.None? ==> closest == MaxFloat
        invariant closest <= MaxFloat
        invariant forall j :: 0 <= j < i && Candidate(me, objs[j], attackRange, dist) ==>
                    closest <= Distance(me, objs[j], dist)
                    && (r.Some? && j < r.value ==> closest < Distance(me, objs[j], dist))
        invariant r.Some? ==> closest < MaxFloat
        invariant r == NearestUpTo(objs, me, attackRange, dist, i)
      {
        var o := objs[i];
        if o.oid != me.oid && o.active {
          if o.team.Some? && TeamComponent.IsEnemyOf(me.team.value, o.team)
             && o.transform.Some? && o.health.Some? && o.health.value.Alive() {
            var distance := dist(me.transform.value, o.transform.value);
            var gridDistance := distance / CellPixels;
            if gridDistance <= attackRange && distance < closest {
              r := Some(i);
              closest := distance;
            }
          }
        }
        i := i + 1;
      }
    }

    /** `attack`: with a target and the cooldown run out, the cooldown restarts
        and the callback, when set, is called once; otherwise nothing happens. */
    method Attack(owner: Option<nat>)
      modifies this
      ensures old(target).None? || !old(CanAttack()) ==> currentCooldown == old(currentCooldown) && attacks == old(attacks)
      ensures old(target).Some? && old(CanAttack()) ==>
                currentCooldown == attackCooldown
                && attacks == old(attacks) + (if hasCallback then [(owner, old(target).value)] else [])
      ensures target == old(target) && attackCooldown == old(attackCooldown) && attackRange == old(attackRange)
      ensures hasScene == old(hasScene) && hasCallback == old(hasCallback) && attackDamage == old(attackDamage)
    {
      if target.None? || !CanAttack() {
        return;
      }
      currentCooldown := attackCooldown;
      if hasCallback {
        attacks := attacks + [(owner, target.value)];
      }
    }

    /** `update`: a positive cooldown runs down by `deltaTime`; then, with a
        scene and the cooldown run out, the target search runs and a target
        found is attacked. */
    method Update(deltaTime: real, objs: seq<GameObj>, owner: Option<GameObj>, dist: (Vec2, Vec2) -> real)
      modifies this
      ensures var cd := if old(currentCooldown) > 0.0 then old(currentCooldown) - deltaTime else old(currentCooldown);
              if hasScene && cd <= 0.0 then
                (target.None? ==> currentCooldown == cd && attacks == old(attacks))
                && (target.Some? ==> currentCooldown == attackCooldown
                                     && attacks == old(attacks) + (if hasCallback then [(if owner.Some? then Some(owner.value.oid) else None, target.value)] else []))
              else currentCooldown == cd && attacks == old(attacks) && target == old(target)
      ensures var cd := if old(currentCooldown) > 0.0 then old(currentCooldown) - deltaTime else old(currentCooldown);
              hasScene && cd <= 0.0 ==> target == SearchTarget(objs, owner, attackRange, dist)
      ensures target.Some? && target != old(target) ==>
                owner.Some? && exists j :: 0 <= j < |objs| && objs[j].oid == target.value
                                           && Candidate(owner.value, objs[j], attackRange, dist)
      ensures hasScene == old(hasScene) && hasCallback == old(hasCallback) && attackCooldown == old(attackCooldown)
      ensures attackRange == old(attackRange) && attackDamage == old(attackDamage)
    {
      if currentCooldown > 0.0 {
        currentCooldown := currentCooldown - deltaTime;
      }
      if hasScene && CanAttack() {
        var found := FindTarget(objs, owner, dist);
        target := if found.Some? then Some(objs[found.value].oid) else None;
        assert target == SearchTarget(objs, owner, attackRange, dist);
        if target.Some? {
          Attack(if owner.Some? then Some(owner.value.oid) else None);
        }
      }
    }

    /** `dealDamage`: only a target with a living health component is damaged,
        by the attack damage. */
    method DealDamage(targetHealth: Option<HealthComponent.HealthComponent>)
      requires targetHealth.Some? ==> targetHealth.value.Valid()
      modifies if targetHealth.Some? then {targetHealth.value} else {}
      ensures targetHealth.Some? ==> targetHealth.value.Valid()
      ensures targetHealth.Some? ==>
                var h := targetHealth.value;
                h.currentHealth == (if old(h.IsAlive()) then HealthComponent.Damaged(old(h.currentHealth), attackDamage)
                                    else old(h.currentHealth))
                && h.isDead == old(h.isDead) && h.maxHealth == old(h.maxHealth)
    {
      if targetHealth.None? {
        return;
      }
      var h := targetHealth.value;
      if h.IsAlive() {
        h.TakeDamage(attackDamage);
      }
    }
  }
}
