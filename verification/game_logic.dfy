/** The game rules of the endless mode: a clock, spawn timers whose intervals
    shrink as the difficulty level rises every 20 seconds, selection and arrow
    movement of a friendly unit on the grid, removal of dead units from the
    grid, and the defeat check (an enemy reaching the leftmost column); there
    is no victory. The scene's objects are a list of `GameObj` values; the
    transform components that movement updates are objects looked up by
    object identity in `transforms`. Spawning is counted in `spawned`. */
module GameLogic {
  import opened Common
  import opened Sorting
  import GridSystem
  import InputManager
  import TransformComponent

  datatype GameState = Playing | Victory | Defeat

  /** Seconds between two rises of the difficulty level. */
  const DifficultyIncreaseInterval: real := 20.0

  const KeyLeft: int := 37
  const KeyUp: int := 38
  const KeyRight: int := 39
  const KeyDown: int := 40
  const LeftButton: int := 1

  // ---------------------------------------------------------------------------
  // Difficulty
  // ---------------------------------------------------------------------------

  /** Seconds between single spawns at a difficulty level. */
  function SpawnIntervalAt(level: int): (r: real)
    ensures r >= 1.0
  {
    Max(1.0, 3.0 - (level - 1) as real * 0.2)
  }

  /** Seconds between batch spawns at a difficulty level. */
  function BatchIntervalAt(level: int): (r: real)
    ensures r >= 5.0
  {
    Max(5.0, 10.0 - (level - 1) as real * 0.3)
  }

  /** Monsters per batch at a difficulty level. */
  function BatchCountAt(level: int): int
  {
    5 + (level - 1)
  }

  /** A higher level never spawns more slowly: both intervals shrink or stay,
      down to their floors of 1 and 5 seconds, and batches grow from 5. */
  lemma DifficultyMonotone(l1: int, l2: int)
    requires 1 <= l1 <= l2
    ensures SpawnIntervalAt(l2) <= SpawnIntervalAt(l1) <= 3.0
    ensures BatchIntervalAt(l2) <= BatchIntervalAt(l1) <= 10.0
    ensures 5 <= BatchCountAt(l1) <= BatchCountAt(l2)
    ensures l2 >= 11 ==> SpawnIntervalAt(l2) == 1.0
    ensures l2 >= 18 ==> BatchIntervalAt(l2) == 5.0
  {
    assert (l1 - 1) as real * 0.2 <= (l2 - 1) as real * 0.2;
    assert (l1 - 1) as real * 0.3 <= (l2 - 1) as real * 0.3;
  }

  // ---------------------------------------------------------------------------
  // Scene queries
  // ---------------------------------------------------------------------------

  /** The first scene object with identity `oid`. */
  function Lookup(objs: seq<GameObj>, oid: nat): (r: Option<GameObj>)
    ensures r.Some? ==> r.value in objs && r.value.oid == oid
    ensures r.None? ==> forall k :: 0 <= k < |objs| ==> objs[k].oid != oid
  {
    if objs == [] then None
    else if objs[0].oid == oid then Some(objs[0])
    else Lookup(objs[1..], oid)
  }

  /** Whether the object with identity `oid` is in the scene and active. */
  predicate ActiveIn(objs: seq<GameObj>, oid: nat)
  {
    var o := Lookup(objs, oid);
    o.Some? && o.value.active
  }

  /** An active enemy whose position lies on a grid cell of column 0 or less:
      the defeat condition. */
  predicate AtFailColumn(grid: GridSystem.GridSystem, o: GameObj)
    requires grid.cellWidth != 0.0 && grid.cellHeight != 0.0
  {
    o.active && o.team == Some(Enemy) && o.transform.Some?
    && var cell := grid.WorldToGrid(o.transform.value.x, o.transform.value.y);
       cell.Some? && cell.value.1 <= 0
  }

  /** `checkGameOver`: DEFEAT as soon as an active enemy stands in the
      leftmost column, otherwise PLAYING; never VICTORY. */
  method CheckGameOver(grid: GridSystem.GridSystem, objs: seq<GameObj>) returns (st: GameState)
    requires grid.cellWidth != 0.0 && grid.cellHeight != 0.0
    ensures st != Victory
    ensures st == Defeat <==> exists k :: 0 <= k < |objs| && AtFailColumn(grid, objs[k])
  {
    var i := 0;
    while i < |objs|
      invariant 0 <= i <= |objs|
      invariant forall k :: 0 <= k < i ==> !AtFailColumn(grid, objs[k])
    {
      var o := objs[i];
      if o.active && o.team.Some? && o.team.value == Enemy && o.transform.Some? {
        var cell := grid.WorldToGrid(o.transform.value.x, o.transform.value.y);
        if cell.Some? && cell.value.1 <= 0 {
          return Defeat;
        }
      }
      i := i + 1;
    }
    return Playing;
  }

  // ---------------------------------------------------------------------------
  // Nearest enemies
  // ---------------------------------------------------------------------------

  /** An object `findNearestEnemies` considers: active, on the enemy team,
      with a health component not marked dead, and with a transform within
      `pixelRange` of `from`. */
  predicate NearEnemy(o: GameObj, from: Vec2, pixelRange: real, dist: (Vec2, Vec2) -> real)
  {
    o.active && o.team == Some(Enemy) && o.health.Some? && !o.health.value.dead
    && o.transform.Some? && dist(from, o.transform.value) <= pixelRange
  }

  /** The objects `findNearestEnemies` considers, in scene order. */
  function NearEnemies(objs: seq<GameObj>, from: Vec2, pixelRange: real, dist: (Vec2, Vec2) -> real): (r: seq<GameObj>)
    ensures forall k :: 0 <= k < |r| ==> NearEnemy(r[k], from, pixelRange, dist)
    ensures forall o :: o in r <==> o in objs && NearEnemy(o, from, pixelRange, dist)
  {
    if objs == [] then []
    else
      var o := objs[|objs| - 1];
      var init := objs[..|objs| - 1];
      assert objs == init + [o];
      assert forall x :: x in objs <==> x in init || x == o;
      NearEnemies(init, from, pixelRange, dist) + (if NearEnemy(o, from, pixelRange, dist) then [o] else [])
  }

  /** The distance from `from`, the sort key. */
  function DistanceFrom(from: Vec2, dist: (Vec2, Vec2) -> real): GameObj -> real
  {
    (o: GameObj) => if o.transform.Some? then dist(from, o.transform.value) else 0.0
  }

  /** `findNearestEnemies`: at most `maxCount` of the considered objects, in
      ascending distance; none leaves out an object nearer than one it keeps.
      An attacker without a transform gets none. */
  method FindNearestEnemies(attacker: GameObj, objs: seq<GameObj>, maxCount: nat, range: real,
                            dist: (Vec2, Vec2) -> real) returns (r: seq<GameObj>)
    ensures attacker.transform.None? ==> r == []
    ensures attacker.transform.Some? ==>
              var from := attacker.transform.value;
              var near := NearEnemies(objs, from, range * CellPixels, dist);
              |r| == (if maxCount < |near| then maxCount else |near|)
              && SortedBy(r, DistanceFrom(from, dist))
              && multiset(r) <= multiset(near)
              && (forall x, y :: x in near && x !in r && y in r ==> DistanceFrom(from, dist)(y) <= DistanceFrom(from, dist)(x))
              && forall v :: var w := WithKey(r, DistanceFrom(from, dist), v);
                             |w| <= |WithKey(near, DistanceFrom(from, dist), v)|
                             && w == WithKey(near, DistanceFrom(from, dist), v)[..|w|]
  {
    if attacker.transform.None? {
      return [];
    }
    var from := attacker.transform.value;
    var pixelRange := range * CellPixels;
    var enemies: seq<GameObj> := [];
    var i := 0;
    while i < |objs|
      invariant 0 <= i <= |objs|
      invariant enemies == NearEnemies(objs[..i], from, pixelRange, dist)
    {
      assert objs[..i + 1][..i] == objs[..i];
      var o := objs[i];
      if o.active && o.team == Some(Enemy) && o.health.Some? && !o.health.value.dead && o.transform.Some? {
        if dist(from, o.transform.value) <= pixelRange {
          enemies := enemies + [o];
        }
      }
      i := i + 1;
    }
    assert objs[..|objs|] == objs;
    var key := DistanceFrom(from, dist);
    var sorted := SortByKey(enemies, key);
    var n := if maxCount < |sorted| then maxCount else |sorted|;
    NearestKept(sorted, enemies, n, key);
    forall v ensures var w := WithKey(sorted[..n], key, v); |w| <= |WithKey(enemies, key, v)| && w == WithKey(enemies, key, v)[..|w|] {
      WithKeyPrefix(sorted, n, key, v);
    }
    r := sorted[..n];
  }

  /** Cutting a sorted permutation of `s` after `n` elements keeps a sub-multiset
      of `s`, and anything cut is at least as far as anything kept. */
  lemma NearestKept(sorted: seq<GameObj>, s: seq<GameObj>, n: nat, key: GameObj -> real)
    requires SortedBy(sorted, key) && multiset(sorted) == multiset(s) && n <= |sorted|
    ensures |sorted| == |s| && SortedBy(sorted[..n], key)
    ensures multiset(sorted[..n]) <= multiset(s)
    ensures forall x, y :: x in s && x !in sorted[..n] && y in sorted[..n] ==> key(y) <= key(x)
  {
    assert |sorted| == |multiset(sorted)| == |multiset(s)| == |s|;
    assert sorted == sorted[..n] + sorted[n..];
    forall x, y | x in s && x !in sorted[..n] && y in sorted[..n]
      ensures key(y) <= key(x)
    {
      assert x in multiset(s);
      assert x in sorted;
      var j :| 0 <= j < |sorted| && sorted[j] == x;
      var k :| 0 <= k < n && sorted[k] == y;
      assert j >= n;
    }
  }

  // ---------------------------------------------------------------------------
  // Player input
  // ---------------------------------------------------------------------------

  /** The cell the arrow keys pressed this frame aim at from `(row, col)`. */
  function ArrowTarget(row: int, col: int, up: bool, down: bool, left: bool, right: bool): (int, int)
  {
    (row - (if up then 1 else 0) + (if down then 1 else 0),
     col - (if left then 1 else 0) + (if right then 1 else 0))
  }

  /** The cell the arrow keys just pressed aim at from `cur`, when any was. */
  function Aim(input: InputManager.InputManager, cur: (int, int)): (r: Option<(int, int)>)
    reads input
    ensures r.Some? <==> input.IsKeyJustPressed(KeyUp) || input.IsKeyJustPressed(KeyDown)
                         || input.IsKeyJustPressed(KeyLeft) || input.IsKeyJustPressed(KeyRight)
  {
    var up := input.IsKeyJustPressed(KeyUp);
    var down := input.IsKeyJustPressed(KeyDown);
    var left := input.IsKeyJustPressed(KeyLeft);
    var right := input.IsKeyJustPressed(KeyRight);
    if up || down || left || right then Some(ArrowTarget(cur.0, cur.1, up, down, left, right)) else None
  }

  // ---------------------------------------------------------------------------
  // Cleaning up the dead
  // ---------------------------------------------------------------------------

  /** An object whose grid cell the clean-up inspects: dead by its health
      component, still active, and with a transform. */
  predicate Doomed(o: GameObj)
  {
    o.health.Some? && o.health.value.dead && o.active && o.transform.Some?
  }

  /** Some object of `objs` empties cell `(row, col)`, which held `occupant`
      before the clean-up: a doomed object standing on that cell and occupying it. */
  ghost predicate ClearsCell(grid: GridSystem.GridSystem, objs: seq<GameObj>, row: int, col: int, occupant: Option<nat>)
    requires grid.cellWidth != 0.0 && grid.cellHeight != 0.0
  {
    objs != []
    && var o := objs[|objs| - 1];
       (ClearsCell(grid, objs[..|objs| - 1], row, col, occupant)
        || (Doomed(o) && grid.WorldToGrid(o.transform.value.x, o.transform.value.y) == Some((row, col))
            && occupant == Some(o.oid)))
  }

  class GameLogic {
    const grid: GridSystem.GridSystem
    var gameState: GameState
    var monsterSpawnTimer: real
    var spawnInterval: real
    var batchSpawnTimer: real
    var batchSpawnInterval: real
    var batchSpawnCount: int
    var gameTime: real
    var difficultyTimer: real
    var difficultyLevel: int
    /** The selected friendly unit, by object identity. */
    var selected: Option<nat>
    /** The number of monsters spawned so far. */
    var spawned: nat

    /** The spawn parameters are always those of the current difficulty level,
        which starts at 1. */
    ghost predicate Valid()
      reads this, grid
    {
      grid.Valid() && grid.cellWidth != 0.0 && grid.cellHeight != 0.0
      && difficultyLevel >= 1
      && spawnInterval == SpawnIntervalAt(difficultyLevel)
      && batchSpawnInterval == BatchIntervalAt(difficultyLevel)
      && batchSpawnCount == BatchCountAt(difficultyLevel)
    }

    constructor(grid: GridSystem.GridSystem)
      requires grid.Valid() && grid.cellWidth != 0.0 && grid.cellHeight != 0.0
      ensures Valid() && this.grid == grid && gameState == Playing && gameTime == 0.0
      ensures difficultyLevel == 1 && spawnInterval == 3.0 && batchSpawnInterval == 10.0 && batchSpawnCount == 5
      ensures monsterSpawnTimer == 0.0 && batchSpawnTimer == 0.0 && difficultyTimer == 0.0
      ensures selected.None? && spawned == 0
    {
      this.grid := grid;
      gameState := Playing;
      monsterSpawnTimer := 0.0;
      spawnInterval := 3.0;
      batchSpawnTimer := 0.0;
      batchSpawnInterval := 10.0;
      batchSpawnCount := 5;
      gameTime := 0.0;
      difficultyTimer := 0.0;
      difficultyLevel := 1;
      selected := None;
      spawned := 0;
    }

    /** `spawnMonster`: the difficulty level rises when its timer reaches 20
        seconds, which resets it and recomputes the spawn parameters; then,
        with the new parameters, a single monster spawns when its timer reaches
        the spawn interval and a batch spawns when its own timer reaches the
        batch interval, each resetting its own timer. */
    method SpawnMonster(deltaTime: real) returns (spawns: nat)
      requires Valid()
      modifies this
      ensures Valid()
      ensures var d := old(difficultyTimer) + deltaTime;
              difficultyLevel == old(difficultyLevel) + (if d >= DifficultyIncreaseInterval then 1 else 0)
              && difficultyTimer == (if d >= DifficultyIncreaseInterval then 0.0 else d)
      ensures var m := old(monsterSpawnTimer) + deltaTime;
              var b := old(batchSpawnTimer) + deltaTime;
              monsterSpawnTimer == (if m >= spawnInterval then 0.0 else m)
              && batchSpawnTimer == (if b >= batchSpawnInterval then 0.0 else b)
              && spawns == (if m >= spawnInterval then 1 else 0) + (if b >= batchSpawnInterval then batchSpawnCount else 0)
      ensures spawned == old(spawned) + spawns
      ensures gameState == old(gameState) && gameTime == old(gameTime) && selected == old(selected)
    {
      var level := difficultyLevel;
      var levelTimer := difficultyTimer + deltaTime;
      if levelTimer >= DifficultyIncreaseInterval {
        levelTimer := 0.0;
        level := level + 1;
        spawnInterval := SpawnIntervalAt(level);
        batchSpawnInterval := BatchIntervalAt(level);
        batchSpawnCount := BatchCountAt(level);
      }
      difficultyTimer, difficultyLevel := levelTimer, level;
      var single := monsterSpawnTimer + deltaTime;
      spawns := 0;
      if single >= spawnInterval {
        single := 0.0;
        spawns := 1;
      }
      monsterSpawnTimer := single;
      var batch := batchSpawnTimer + deltaTime;
      if batch >= batchSpawnInterval {
        batch := 0.0;
        ghost var singles := spawns;
        var i := 0;
        while i < batchSpawnCount
          invariant 0 <= i <= batchSpawnCount
          invariant spawns == singles + i
        {
          spawns := spawns + 1;
          i := i + 1;
        }
      }
      batchSpawnTimer := batch;
      spawned := spawned + spawns;
    }

    /** The unit a left click selects this frame: the occupant of the clicked
        cell, when it is friendly. */
    ghost function Picked(input: InputManager.InputManager, objs: seq<GameObj>): Option<nat>
      requires Valid() && input.Valid()
      reads this, grid, grid.grid, input, input.mouseButtonsJustPressed
    {
      if !input.IsMouseButtonJustPressed(LeftButton) then None
      else
        var cell := grid.WorldToGrid(input.mousePosition.x, input.mousePosition.y);
        if cell.None? then None
        else
          var occupant := grid.Get(cell.value.0, cell.value.1);
          if occupant.None? then None
          else
            var o := Lookup(objs, occupant.value);
            if o.Some? && o.value.team == Some(Friendly) then occupant else None
    }

    /** `handlePlayerInput`: first the selection, then the move of the selected
        unit. */
    method HandlePlayerInput(input: InputManager.InputManager, objs: seq<GameObj>,
                             transforms: map<nat, TransformComponent.TransformComponent>)
      requires Valid() && input.Valid()
      requires forall id :: id in transforms ==> transforms[id].Valid()
      modifies this, grid.grid, transforms.Values
      ensures Valid()
      ensures forall id :: id in transforms ==> transforms[id].Valid()
      ensures selected == if old(Picked(input, objs)).Some? then old(Picked(input, objs)) else old(selected)
      ensures gameState == old(gameState) && gameTime == old(gameTime) && spawned == old(spawned)
      ensures difficultyLevel == old(difficultyLevel) && difficultyTimer == old(difficultyTimer)
      ensures monsterSpawnTimer == old(monsterSpawnTimer) && batchSpawnTimer == old(batchSpawnTimer)
    {
      SelectUnit(input, objs);
      MoveSelected(input, objs, transforms);
    }

    /** The selection half of `handlePlayerInput`: a left click on a cell
        holding a friendly unit selects it; anything else keeps the selection. */
    method SelectUnit(input: InputManager.InputManager, objs: seq<GameObj>)
      requires Valid() && input.Valid()
      modifies this
      ensures Valid()
      ensures selected == if old(Picked(input, objs)).Some? then old(Picked(input, objs)) else old(selected)
      ensures selected.Some? && selected != old(selected) ==>
                var o := Lookup(objs, selected.value);
                o.Some? && o.value.team == Some(Friendly)
      ensures gameState == old(gameState) && gameTime == old(gameTime) && spawned == old(spawned)
      ensures difficultyLevel == old(difficultyLevel) && difficultyTimer == old(difficultyTimer)
      ensures monsterSpawnTimer == old(monsterSpawnTimer) && batchSpawnTimer == old(batchSpawnTimer)
    {
      if input.IsMouseButtonJustPressed(LeftButton) {
        var cell := grid.WorldToGrid(input.mousePosition.x, input.mousePosition.y);
        if cell.Some? {
          var occupant := grid.Get(cell.value.0, cell.value.1);
          if occupant.Some? {
            var o := Lookup(objs, occupant.value);
            if o.Some? && o.value.team.Some? && o.value.team.value == Friendly {
              selected := occupant;
            }
          }
        }
      }
    }

    /** The move half of `handlePlayerInput`. When the selected unit is active
        and its transform stands on a grid cell, the arrow keys just pressed aim
        at a cell; if that cell can be moved to, the unit's cell is emptied, the
        unit is placed in the target cell, and its transform heads for the
        target's centre. Only the target cell is touched otherwise (the
        occupancy check clears an inactive occupant), and no other transform. */
    method MoveSelected(input: InputManager.InputManager, objs: seq<GameObj>,
                        transforms: map<nat, TransformComponent.TransformComponent>)
      requires Valid() && input.Valid()
      requires forall id :: id in transforms ==> transforms[id].Valid()
      modifies grid.grid, transforms.Values
      ensures forall id :: id in transforms ==> transforms[id].Valid()
      ensures var src := old(MoveSource(objs, transforms));
              var aim := if src.Some? then Aim(input, src.value) else None;
              var isActive := (id: nat) => ActiveIn(objs, id);
              var moves := aim.Some? && grid.IsValidCell(aim.value.0, aim.value.1)
                           && !GridSystem.Live(old(grid.grid[aim.value.0, aim.value.1]), isActive);
              (moves ==> grid.grid[aim.value.0, aim.value.1] == selected
                         && (aim.value != src.value ==> grid.grid[src.value.0, src.value.1].None?)
                         && transforms[selected.value].State()
                            == TransformComponent.Headed(old(transforms[selected.value].State()),
                                                         grid.GridToWorld(aim.value.0, aim.value.1)))
              && (!moves && aim.Some? && grid.IsValidCell(aim.value.0, aim.value.1) ==>
                    grid.grid[aim.value.0, aim.value.1] == GridSystem.Cleaned(old(grid.grid[aim.value.0, aim.value.1]), isActive))
              && (forall r, c :: 0 <= r < grid.rows && 0 <= c < grid.cols
                                 && (aim.None? || (r, c) != aim.value) && (!moves || (r, c) != src.value) ==>
                                   grid.grid[r, c] == old(grid.grid[r, c]))
              && (forall id :: id in transforms && (!moves || transforms[id] != transforms[selected.value]) ==>
                                   transforms[id].State() == old(transforms[id].State()))
    {
      var isActive := (id: nat) => ActiveIn(objs, id);
      if selected.None? || !ActiveIn(objs, selected.value) {
        return;
      }
      if selected.value !in transforms {
        return;
      }
      var t := transforms[selected.value];
      var currentGrid := grid.WorldToGrid(t.position.x, t.position.y);
      assert currentGrid == MoveSource(objs, transforms);
      if currentGrid.None? {
        return;
      }
      var aim := Aim(input, currentGrid.value);
      if aim.Some? {
        var target := aim.value;
        var free := grid.CanMoveTo(target.0, target.1, isActive);
        if free {
          var _ := grid.Remove(currentGrid.value.0, currentGrid.value.1);
          var _ := grid.Place(target.0, target.1, selected.value, isActive);
          t.MoveTo(grid.GridToWorld(target.0, target.1));
        }
      }
    }

    /** The cell under the selected unit, when it is active and its transform
        stands on the grid: where a move starts. */
    ghost function MoveSource(objs: seq<GameObj>, transforms: map<nat, TransformComponent.TransformComponent>): (r: Option<(int, int)>)
      requires Valid()
      reads this, grid, transforms.Values
      ensures r.Some? ==> selected.Some? && selected.value in transforms && grid.IsValidCell(r.value.0, r.value.1)
    {
      if selected.Some? && ActiveIn(objs, selected.value) && selected.value in transforms then
        var p := transforms[selected.value].position;
        grid.WorldToGrid(p.x, p.y)
      else None
    }

    /** `cleanupDeadEntities` over the owners of the scene's health components:
        a cell is emptied exactly when it holds a doomed object standing on it;
        every other cell keeps its occupant. */
    method CleanupDeadEntities(objs: seq<GameObj>)
      requires Valid()
      modifies grid.grid
      ensures Valid()
      ensures forall r, c :: 0 <= r < grid.rows && 0 <= c < grid.cols ==>
                grid.grid[r, c] == if ClearsCell(grid, objs, r, c, old(grid.grid[r, c])) then None else old(grid.grid[r, c])
    {
      var i := 0;
      while i < |objs|
        invariant 0 <= i <= |objs|
        invariant forall r, c :: 0 <= r < grid.rows && 0 <= c < grid.cols ==>
                    grid.grid[r, c] == if ClearsCell(grid, objs[..i], r, c, old(grid.grid[r, c])) then None else old(grid.grid[r, c])
      {
        assert objs[..i + 1][..i] == objs[..i];
        var o := objs[i];
        if o.health.Some? && o.health.value.dead && o.active && o.transform.Some? {
          var cell := grid.WorldToGrid(o.transform.value.x, o.transform.value.y);
          if cell.Some? && grid.Get(cell.value.0, cell.value.1) == Some(o.oid) {
            var _ := grid.Remove(cell.value.0, cell.value.1);
          }
        }
        i := i + 1;
      }
      assert objs[..|objs|] == objs;
    }

    /** `update`: nothing happens unless the game is being played. Otherwise
        the clock advances, input, spawning and clean-up run, and the state
        becomes DEFEAT exactly when an active enemy stands in the leftmost
        column; it never becomes VICTORY. */
    method Update(deltaTime: real, input: InputManager.InputManager, objs: seq<GameObj>,
                  transforms: map<nat, TransformComponent.TransformComponent>)
      requires Valid() && input.Valid()
      requires forall id :: id in transforms ==> transforms[id].Valid()
      modifies this, grid.grid, transforms.Values
      ensures Valid()
      ensures old(gameState) != Playing ==>
                gameState == old(gameState) && gameTime == old(gameTime) && spawned == old(spawned)
                && difficultyLevel == old(difficultyLevel) && selected == old(selected)
                && (forall r, c :: 0 <= r < grid.rows && 0 <= c < grid.cols ==> grid.grid[r, c] == old(grid.grid[r, c]))
                && (forall id :: id in transforms ==> transforms[id].State() == old(transforms[id].State()))
      ensures old(gameState) == Playing ==>
                gameTime == old(gameTime) + deltaTime
                && (gameState == Defeat <==> exists k :: 0 <= k < |objs| && AtFailColumn(grid, objs[k]))
                && gameState != Victory
      ensures difficultyLevel >= old(difficultyLevel)
    {
      if gameState != Playing {
        return;
      }
      gameTime := gameTime + deltaTime;
      HandlePlayerInput(input, objs, transforms);
      var _ := SpawnMonster(deltaTime);
      CleanupDeadEntities(objs);
      var newState := CheckGameOver(grid, objs);
      if newState != gameState {
        gameState := newState;
      }
    }

    predicate IsGameWon()
      reads this
    {
      gameState == Victory
    }

    predicate IsGameLost()
      reads this
    {
      gameState == Defeat
    }
  }
}
