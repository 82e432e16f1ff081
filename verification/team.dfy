/** Teams: friendly (the player's side) and enemy. Relations between two team
    components, where the other component may be missing. */
module TeamComponent {
  import opened Common

  /** `isEnemy(other)`: a missing component is nobody's enemy. */
  predicate IsEnemyOf(team: Team, other: Option<Team>)
  {
    other.Some? && team != other.value
  }

  /** `isFriendly(other)`: a missing component is nobody's friend. */
  predicate IsFriendlyOf(team: Team, other: Option<Team>)
  {
    other.Some? && team == other.value
  }

  /** `isFriendly()` */
  predicate IsFriendly(team: Team)
  {
    team == Friendly
  }

  /** `isEnemy()` */
  predicate IsEnemy(team: Team)
  {
    team == Enemy
  }

  /** Against a missing component both relations are false; against a present
      one exactly one of them holds. */
  lemma EnemyOrFriend(team: Team, other: Option<Team>)
    ensures other.None? ==> !IsEnemyOf(team, other) && !IsFriendlyOf(team, other)
    ensures other.Some? ==> (IsEnemyOf(team, other) <==> !IsFriendlyOf(team, other))
  {
  }

  /** Both relations are symmetric. */
  lemma RelationsSymmetric(a: Team, b: Team)
    ensures IsEnemyOf(a, Some(b)) <==> IsEnemyOf(b, Some(a))
    ensures IsFriendlyOf(a, Some(b)) <==> IsFriendlyOf(b, Some(a))
  {
  }

  /** Every component is either friendly or an enemy, never both; and two
      components are enemies iff exactly one of them is friendly. */
  lemma OneSide(a: Team, b: Team)
    ensures IsFriendly(a) <==> !IsEnemy(a)
    ensures IsEnemyOf(a, Some(b)) <==> (IsFriendly(a) != IsFriendly(b))
  {
  }
}
