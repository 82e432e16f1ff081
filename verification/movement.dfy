/** The movement component: an object walks across the grid one cell at a
    time in a fixed direction. A timer accumulates `deltaTime * moveSpeed`;
    each time it reaches 1 the object heads smoothly for the next cell, unless
    that cell is off the grid, in which case an enemy leaving through the left
    edge is destroyed. The owner's presence, transform and team are
    parameters; `destroyOwner` reports a call of `owner.destroy()`. */
module MovementComponent {
  import opened Common
  import GridSystem
  import opened TransformComponent

  /** The objects a call may modify: the owner's transform, when there is one. */
  function TransformFrame(t: Option<TransformComponent>): set<object>
  {
    if t.Some? then {t.value} else {}
  }

  /** The cell one step from `(row, col)` in `direction`, each component
      truncated toward zero. */
  function NextCell(row: int, col: int, direction: Vec2): (int, int)
  {
    (row + TruncToInt(direction.y), col + TruncToInt(direction.x))
  }

  /** `onReachedBoundary` destroys the owner only when it leaves through the
      left edge and is on the enemy team. */
  predicate DestroyedAtBoundary(targetCol: int, team: Option<Team>)
  {
    targetCol < 0 && team == Some(Enemy)
  }

  /** Friendly objects are never destroyed at the boundary, nor is anything
      that leaves through the top, bottom or right edge. */
  lemma OnlyEnemiesLeavingLeft(targetCol: int, team: Option<Team>)
    ensures team != Some(Enemy) ==> !DestroyedAtBoundary(targetCol, team)
    ensures targetCol >= 0 ==> !DestroyedAtBoundary(targetCol, team)
  {
  }

  class MovementComponent {
    /** Cells per second. */
    var moveSpeed: real
    var direction: Vec2
    var currentRow: int
    var currentCol: int
    var gridSystem: Option<GridSystem.GridSystem>
    var moveTimer: real

    /** A null direction becomes the zero vector, and the object stands still. */
    constructor(moveSpeed: real, direction: Option<Vec2>)
      ensures this.moveSpeed == moveSpeed
      ensures this.direction == if direction.Some? then direction.value else Vec2(0.0, 0.0)
      ensures moveTimer == 0.0 && currentRow == 0 && currentCol == 0 && gridSystem.None?
    {
      this.moveSpeed := moveSpeed;
      this.direction := if direction.Some? then direction.value else Vec2(0.0, 0.0);
      moveTimer := 0.0;
      currentRow := 0;
      currentCol := 0;
      gridSystem := None;
    }

    /** `initialize`: with a grid, an owner and a transform, the current cell
        becomes the cell under the owner's position, when there is one. */
    method Initialize(hasOwner: bool, transform: Option<TransformComponent>)
      requires gridSystem.Some? ==> gridSystem.value.cellWidth != 0.0 && gridSystem.value.cellHeight != 0.0
      modifies this
      ensures gridSystem == old(gridSystem)
      ensures var g := gridSystem;
              if g.Some? && hasOwner && transform.Some?
                 && g.value.WorldToGrid(transform.value.position.x, transform.value.position.y).Some?
              then (currentRow, currentCol) == g.value.WorldToGrid(transform.value.position.x, transform.value.position.y).value
              else currentRow == old(currentRow) && currentCol == old(currentCol)
      ensures moveTimer == old(moveTimer) && direction == old(direction) && moveSpeed == old(moveSpeed)
    {
      if hasOwner && gridSystem.Some? && transform.Some? {
        var pos := transform.value.position;
        var cell := gridSystem.value.WorldToGrid(pos.x, pos.y);
        if cell.Some? {
          currentRow := cell.value.0;
          currentCol := cell.value.1;
        }
      }
    }

    /** `update`: nothing happens without a grid, an owner, a non-zero
        direction or a transform, nor while the transform is still moving.
        Otherwise the timer grows; once it reaches 1 it restarts and one step
        is taken: into a valid cell, which becomes current and toward whose
        centre the transform heads, or off the grid, which leaves the cell and
        the transform alone and runs the boundary handler. */
    method Update(deltaTime: real, hasOwner: bool, transform: Option<TransformComponent>, team: Option<Team>,
                  magnitude: Vec2 -> real) returns (destroyOwner: bool)
      requires transform.Some? ==> transform.value.Valid()
      modifies this, TransformFrame(transform)
      ensures transform.Some? ==> transform.value.Valid()
      ensures gridSystem == old(gridSystem) && direction == old(direction) && moveSpeed == old(moveSpeed)
      ensures gridSystem.None? || !hasOwner || magnitude(direction) == 0.0 || transform.None?
              || old(transform.value.isMoving) ==>
                !destroyOwner && moveTimer == old(moveTimer)
                && currentRow == old(currentRow) && currentCol == old(currentCol)
                && (transform.Some? ==> transform.value.State() == old(transform.value.State()))
      ensures gridSystem.Some? && hasOwner && magnitude(direction) != 0.0 && transform.Some?
              && !old(transform.value.isMoving) ==>
                var g := gridSystem.value;
                var timer := old(moveTimer) + deltaTime * moveSpeed;
                var next := NextCell(old(currentRow), old(currentCol), direction);
                var stepped := timer >= 1.0 && g.IsValidCell(next.0, next.1);
                moveTimer == (if timer >= 1.0 then 0.0 else timer)
                && destroyOwner == (timer >= 1.0 && !g.IsValidCell(next.0, next.1) && DestroyedAtBoundary(next.1, team))
                && (currentRow, currentCol) == (if stepped then next else (old(currentRow), old(currentCol)))
                && transform.value.State() == (if stepped then Headed(old(transform.value.State()), g.GridToWorld(next.0, next.1))
                                               else old(transform.value.State()))
    {
      destroyOwner := false;
      if gridSystem.None? || !hasOwner {
        return;
      }
      if magnitude(direction) == 0.0 {
        return;
      }
      if transform.None? {
        return;
      }
      var t := transform.value;
      if t.isMoving {
        return;
      }
      moveTimer := moveTimer + deltaTime * moveSpeed;
      if moveTimer >= 1.0 {
        moveTimer := 0.0;
        var targetRow := currentRow + TruncToInt(direction.y);
        var targetCol := currentCol + TruncToInt(direction.x);
        if !gridSystem.value.IsValidCell(targetRow, targetCol) {
          destroyOwner := OnReachedBoundary(targetCol, team);
          return;
        }
        var newPos := gridSystem.value.GridToWorld(targetRow, targetCol);
        t.MoveTo(newPos);
        currentRow := targetRow;
        currentCol := targetCol;
      }
    }

    /** `onReachedBoundary` */
    static method OnReachedBoundary(targetCol: int, team: Option<Team>) returns (destroyOwner: bool)
      ensures destroyOwner <==> DestroyedAtBoundary(targetCol, team)
    {
      destroyOwner := false;
      if targetCol < 0 {
        if team.Some? && team.value == Enemy {
          destroyOwner := true;
        }
      }
    }

    /** `moveToGrid`: a valid cell becomes current and the transform is placed
        at its centre at once; an invalid cell, or a missing grid, owner or
        transform, changes nothing. */
    method MoveToGrid(row: int, col: int, hasOwner: bool, transform: Option<TransformComponent>)
      requires transform.Some? ==> transform.value.Valid()
      modifies this, TransformFrame(transform)
      ensures transform.Some? ==> transform.value.Valid()
      ensures gridSystem == old(gridSystem) && direction == old(direction) && moveTimer == old(moveTimer)
      ensures moveSpeed == old(moveSpeed)
      ensures var moved := gridSystem.Some? && hasOwner && gridSystem.value.IsValidCell(row, col) && transform.Some?;
              (currentRow, currentCol) == (if moved then (row, col) else (old(currentRow), old(currentCol)))
              && (transform.Some? ==>
                    transform.value.State() == if moved then Placed(old(transform.value.State()), gridSystem.value.GridToWorld(row, col))
                                               else old(transform.value.State()))
    {
      if gridSystem.None? || !hasOwner {
        return;
      }
      if !gridSystem.value.IsValidCell(row, col) {
        return;
      }
      if transform.Some? {
        var newPos := gridSystem.value.GridToWorld(row, col);
        transform.value.SetPosition(newPos);
        currentRow := row;
        currentCol := col;
      }
    }
  }
}
