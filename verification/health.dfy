/** The health component: a maximum, a current value and a death flag. Damage
    and healing are clamped and ignored once dead; the per-frame update marks
    the component dead, once, when its health has run out, and then destroys
    the owning object if there is one. */
module HealthComponent {
  import opened Common

  /** `currentHealth -= damage`, floored at 0. */
  function Damaged(current: real, damage: real): (r: real)
    ensures r >= 0.0
    ensures r == 0.0 <==> current - damage <= 0.0
    ensures r > 0.0 ==> r == current - damage
  {
    if current - damage < 0.0 then 0.0 else current - damage
  }

  /** `currentHealth += amount`, capped at the maximum. */
  function Healed(current: real, amount: real, maxHealth: real): (r: real)
    ensures r <= maxHealth
    ensures r < maxHealth ==> r == current + amount
    ensures current + amount >= maxHealth ==> r == maxHealth
  {
    if current + amount > maxHealth then maxHealth else current + amount
  }

  /** `setCurrentHealth`: capped at the maximum, then floored at 0. */
  function Clamped(value: real, maxHealth: real): (r: real)
    ensures r >= 0.0
    ensures maxHealth >= 0.0 ==> r <= maxHealth
    ensures 0.0 <= value <= maxHealth ==> r == value
  {
    var capped := if value > maxHealth then maxHealth else value;
    if capped < 0.0 then 0.0 else capped
  }

  /** `getHealthPercentage`: 0 without a positive maximum. */
  function Percentage(current: real, maxHealth: real): (r: real)
    ensures maxHealth <= 0.0 ==> r == 0.0
    ensures maxHealth > 0.0 && 0.0 <= current <= maxHealth ==> 0.0 <= r <= 1.0
    ensures maxHealth > 0.0 ==> r * maxHealth == current
  {
    if maxHealth > 0.0 then current / maxHealth else 0.0
  }

  class HealthComponent {
    var maxHealth: real
    var currentHealth: real
    var isDead: bool
    /** How many times the owner has been destroyed by this component. */
    var ownerDestroyed: nat

    /** The owner is destroyed at most once, and only by a dead component. */
    ghost predicate Valid()
      reads this
    {
      ownerDestroyed <= (if isDead then 1 else 0)
    }

    /** What the health component of a scene object shows to the other components. */
    function View(): HealthView
      reads this
    {
      HealthView(currentHealth, isDead)
    }

    constructor(maxHealth: real)
      ensures Valid()
      ensures this.maxHealth == maxHealth && currentHealth == maxHealth && !isDead && ownerDestroyed == 0
    {
      this.maxHealth := maxHealth;
      currentHealth := maxHealth;
      isDead := false;
      ownerDestroyed := 0;
    }

    /** `update`: the first update that finds the health run out marks the
        component dead and destroys the owner, when it has one; death never
        reverts and the owner is never destroyed twice. */
    method Update(deltaTime: real, hasOwner: bool)
      requires Valid()
      modifies this
      ensures Valid()
      ensures isDead == (old(isDead) || currentHealth <= 0.0)
      ensures ownerDestroyed == old(ownerDestroyed) + (if !old(isDead) && currentHealth <= 0.0 && hasOwner then 1 else 0)
      ensures currentHealth == old(currentHealth) && maxHealth == old(maxHealth)
    {
      if currentHealth <= 0.0 && !isDead {
        isDead := true;
        if hasOwner {
          ownerDestroyed := ownerDestroyed + 1;
        }
      }
    }

    /** `takeDamage`: ignored once dead. */
    method TakeDamage(damage: real)
      requires Valid()
      modifies this
      ensures Valid()
      ensures currentHealth == if old(isDead) then old(currentHealth) else Damaged(old(currentHealth), damage)
      ensures isDead == old(isDead) && maxHealth == old(maxHealth) && ownerDestroyed == old(ownerDestroyed)
    {
      if isDead {
        return;
      }
      currentHealth := currentHealth - damage;
      if currentHealth < 0.0 {
        currentHealth := 0.0;
      }
    }

    /** `heal`: ignored once dead. */
    method Heal(amount: real)
      requires Valid()
      modifies this
      ensures Valid()
      ensures currentHealth == if old(isDead) then old(currentHealth) else Healed(old(currentHealth), amount, maxHealth)
      ensures isDead == old(isDead) && maxHealth == old(maxHealth) && ownerDestroyed == old(ownerDestroyed)
    {
      if isDead {
        return;
      }
      currentHealth := currentHealth + amount;
      if currentHealth > maxHealth {
        currentHealth := maxHealth;
      }
    }

    /** `isAlive` */
    predicate IsAlive()
      reads this
    {
      View().Alive()
    }

    function HealthPercentage(): real
      reads this
    {
      Percentage(currentHealth, maxHealth)
    }

    /** `setMaxHealth`: the current value is lowered to a smaller maximum. */
    method SetMaxHealth(newMax: real)
      requires Valid()
      modifies this
      ensures Valid()
      ensures maxHealth == newMax
      ensures currentHealth == if old(currentHealth) > newMax then newMax else old(currentHealth)
      ensures isDead == old(isDead) && ownerDestroyed == old(ownerDestroyed)
    {
      maxHealth := newMax;
      if currentHealth > maxHealth {
        currentHealth := maxHealth;
      }
    }

    /** `setCurrentHealth`: the value clamped into [0, max]. */
    method SetCurrentHealth(value: real)
      requires Valid()
      modifies this
      ensures Valid()
      ensures currentHealth == Clamped(value, maxHealth)
      ensures isDead == old(isDead) && maxHealth == old(maxHealth) && ownerDestroyed == old(ownerDestroyed)
    {
      currentHealth := value;
      if currentHealth > maxHealth {
        currentHealth := maxHealth;
      }
      if currentHealth < 0.0 {
        currentHealth := 0.0;
      }
    }
  }

  /** A component whose health lies in [0, max] keeps it there through damage,
      healing of non-negative amounts and the clamping setter. */
  lemma HealthStaysInRange(current: real, maxHealth: real, damage: real, amount: real, value: real)
    requires 0.0 <= current <= maxHealth && damage >= 0.0 && amount >= 0.0
    ensures 0.0 <= Damaged(current, damage) <= current
    ensures current <= Healed(current, amount, maxHealth) <= maxHealth
    ensures 0.0 <= Clamped(value, maxHealth) <= maxHealth
  {
  }

  /** A component that has taken damage at least equal to its health is no
      longer alive, and the next update kills it. */
  lemma LethalDamage(current: real, damage: real)
    requires damage >= current
    ensures !HealthView(Damaged(current, damage), false).Alive()
    ensures Damaged(current, damage) <= 0.0
  {
  }
}
