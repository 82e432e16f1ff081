/** The battlefield grid: a rows-by-columns array of cells, each empty or
    holding a reference to one scene object, with conversions between cells
    and world coordinates. An object that has become inactive while sitting in
    a cell no longer occupies it, and the occupancy check clears such a cell on
    the way. Object references are object identities (`GameObj.oid`); whether
    an object is active at the moment of a call is the parameter `isActive`. */
module GridSystem {
  import opened Common

  const DefaultRows: nat := 5
  const DefaultCols: nat := 9
  const DefaultCellWidth: real := 80.0
  const DefaultCellHeight: real := 80.0
  const DefaultOffsetX: real := 40.0
  const DefaultOffsetY: real := 100.0

  /** A cell whose occupant is a live (active) object. */
  predicate Live(cell: Option<nat>, isActive: nat -> bool)
  {
    cell.Some? && isActive(cell.value)
  }

  /** What the occupancy check leaves in a cell: a live occupant stays, an
      inactive one is cleared. */
  function Cleaned(cell: Option<nat>, isActive: nat -> bool): (r: Option<nat>)
    ensures Live(r, isActive) == Live(cell, isActive)
    ensures r.Some? ==> r == cell
  {
    if Live(cell, isActive) then cell else None
  }

  /** Cell `(r1, c1)` comes strictly before `(r2, c2)` in row-major order. */
  predicate Before(r1: int, c1: int, r2: int, c2: int)
  {
    r1 < r2 || (r1 == r2 && c1 < c2)
  }

  class GridSystem {
    const rows: nat
    const cols: nat
    const cellWidth: real
    const cellHeight: real
    const offsetX: real
    const offsetY: real
    /** The occupant of each cell, by object identity. */
    const grid: array2<Option<nat>>

    ghost predicate Valid()
      reads this
    {
      grid.Length0 == rows && grid.Length1 == cols
    }

    /** `new GameObject[rows][cols]` refuses negative sizes, hence `nat`. */
    constructor(rows: nat, cols: nat, cellWidth: real, cellHeight: real, offsetX: real, offsetY: real)
      ensures Valid() && fresh(grid)
      ensures this.rows == rows && this.cols == cols && this.cellWidth == cellWidth
      ensures this.cellHeight == cellHeight && this.offsetX == offsetX && this.offsetY == offsetY
      ensures forall r, c :: 0 <= r < rows && 0 <= c < cols ==> grid[r, c].None?
    {
      this.rows := rows;
      this.cols := cols;
      this.cellWidth := cellWidth;
      this.cellHeight := cellHeight;
      this.offsetX := offsetX;
      this.offsetY := offsetY;
      grid := new Option<nat>[rows, cols]((r, c) => None);
    }

    /** `new GridSystem()`: five rows of nine 80-by-80 cells starting at (40, 100). */
    constructor Default()
      ensures Valid() && fresh(grid)
      ensures rows == DefaultRows && cols == DefaultCols && cellWidth == DefaultCellWidth
      ensures cellHeight == DefaultCellHeight && offsetX == DefaultOffsetX && offsetY == DefaultOffsetY
      ensures forall r, c :: 0 <= r < rows && 0 <= c < cols ==> grid[r, c].None?
    {
      rows := DefaultRows;
      cols := DefaultCols;
      cellWidth := DefaultCellWidth;
      cellHeight := DefaultCellHeight;
      offsetX := DefaultOffsetX;
      offsetY := DefaultOffsetY;
      grid := new Option<nat>[DefaultRows, DefaultCols]((r, c) => None);
    }

    predicate IsValidCell(row: int, col: int)
    {
      0 <= row < rows && 0 <= col < cols
    }

    /** `getObject`: the occupant of a valid cell, active or not; null for an
        invalid cell. */
    function Get(row: int, col: int): (r: Option<nat>)
      requires Valid()
      reads this, grid
      ensures !IsValidCell(row, col) ==> r.None?
      ensures IsValidCell(row, col) ==> r == grid[row, col]
    {
      if IsValidCell(row, col) then grid[row, col] else None
    }

    /** `isOccupied`: an invalid cell counts as occupied; a valid one is occupied
        iff it holds an active object, and one holding an inactive object is
        cleared. No cell changes whether it is live. */
    method IsOccupied(row: int, col: int, isActive: nat -> bool) returns (occupied: bool)
      requires Valid()
      modifies grid
      ensures !IsValidCell(row, col) ==> occupied
      ensures IsValidCell(row, col) ==>
                occupied == Live(old(grid[row, col]), isActive) && grid[row, col] == Cleaned(old(grid[row, col]), isActive)
      ensures forall r, c :: 0 <= r < rows && 0 <= c < cols && !(r == row && c == col) ==> grid[r, c] == old(grid[r, c])
      ensures forall r, c :: 0 <= r < rows && 0 <= c < cols ==> Live(grid[r, c], isActive) == Live(old(grid[r, c]), isActive)
    {
      if !IsValidCell(row, col) {
        return true;
      }
      var obj := grid[row, col];
      if obj.Some? && !isActive(obj.value) {
        grid[row, col] := None;
        return false;
      }
      occupied := obj.Some?;
    }

    /** `canMoveTo`: a valid cell that is not occupied. Only the occupancy check
        of a valid cell touches the grid. */
    method CanMoveTo(row: int, col: int, isActive: nat -> bool) returns (ok: bool)
      requires Valid()
      modifies grid
      ensures ok <==> IsValidCell(row, col) && !Live(old(grid[row, col]), isActive)
      ensures IsValidCell(row, col) ==> grid[row, col] == Cleaned(old(grid[row, col]), isActive)
      ensures forall r, c :: 0 <= r < rows && 0 <= c < cols && !(r == row && c == col) ==> grid[r, c] == old(grid[r, c])
    {
      ok := false;
      if IsValidCell(row, col) {
        var occupied := IsOccupied(row, col, isActive);
        ok := !occupied;
      }
    }

    /** `placeObject`: succeeds iff the cell can be moved to, and then that cell
        alone changes, to hold the object. */
    method Place(row: int, col: int, obj: nat, isActive: nat -> bool) returns (ok: bool)
      requires Valid()
      modifies grid
      ensures ok <==> IsValidCell(row, col) && !Live(old(grid[row, col]), isActive)
      ensures ok ==> grid[row, col] == Some(obj)
      ensures !ok && IsValidCell(row, col) ==> grid[row, col] == old(grid[row, col])
      ensures forall r, c :: 0 <= r < rows && 0 <= c < cols && !(r == row && c == col) ==> grid[r, c] == old(grid[r, c])
    {
      ok := CanMoveTo(row, col, isActive);
      if ok {
        grid[row, col] := Some(obj);
      }
    }

    /** `removeObject`: the previous occupant of a valid cell, which becomes
        empty; an invalid cell gives null and nothing changes. */
    method Remove(row: int, col: int) returns (obj: Option<nat>)
      requires Valid()
      modifies grid
      ensures !IsValidCell(row, col) ==> obj.None?
      ensures IsValidCell(row, col) ==> obj == old(grid[row, col]) && grid[row, col].None?
      ensures forall r, c :: 0 <= r < rows && 0 <= c < cols && !(r == row && c == col) ==> grid[r, c] == old(grid[r, c])
    {
      if !IsValidCell(row, col) {
        return None;
      }
      obj := grid[row, col];
      grid[row, col] := None;
    }

    /** `moveObject`: fails when the source is invalid, the destination cannot be
        moved to, or the source is empty (which includes a source equal to the
        destination). On success the source is empty, the destination holds the
        source's occupant, and no other cell changes. A failure may still have
        cleared an inactive occupant from the destination. */
    method Move(fromRow: int, fromCol: int, toRow: int, toCol: int, isActive: nat -> bool) returns (ok: bool)
      requires Valid()
      modifies grid
      ensures ok <==> IsValidCell(fromRow, fromCol) && IsValidCell(toRow, toCol)
                      && !Live(old(grid[toRow, toCol]), isActive)
                      && !(fromRow == toRow && fromCol == toCol) && old(grid[fromRow, fromCol]).Some?
      ensures ok ==> grid[fromRow, fromCol].None? && grid[toRow, toCol] == old(grid[fromRow, fromCol])
      ensures !ok && IsValidCell(fromRow, fromCol) && IsValidCell(toRow, toCol) ==>
                grid[toRow, toCol] == Cleaned(old(grid[toRow, toCol]), isActive)
      ensures !ok && !IsValidCell(fromRow, fromCol) ==> forall r, c :: 0 <= r < rows && 0 <= c < cols ==> grid[r, c] == old(grid[r, c])
      ensures forall r, c :: 0 <= r < rows && 0 <= c < cols && !(r == fromRow && c == fromCol) && !(r == toRow && c == toCol) ==>
                grid[r, c] == old(grid[r, c])
      ensures !ok && IsValidCell(fromRow, fromCol) ==> grid[fromRow, fromCol] == old(grid[fromRow, fromCol]) || (fromRow == toRow && fromCol == toCol)
    {
      if !IsValidCell(fromRow, fromCol) {
        return false;
      }
      var free := CanMoveTo(toRow, toCol, isActive);
      if !free {
        return false;
      }
      var obj := grid[fromRow, fromCol];
      if obj.None? {
        return false;
      }
      grid[fromRow, fromCol] := None;
      grid[toRow, toCol] := obj;
      ok := true;
    }

    /** `findObject`: the first cell in row-major order whose occupant is
        `target` (a null `target` finds the first empty cell), or null when no
        cell matches. */
    method FindObject(target: Option<nat>) returns (r: Option<(nat, nat)>)
      requires Valid()
      ensures r.Some? ==> IsValidCell(r.value.0, r.value.1) && grid[r.value.0, r.value.1] == target
      ensures r.Some? ==> forall i, j :: 0 <= i < rows && 0 <= j < cols && Before(i, j, r.value.0, r.value.1) ==>
                            grid[i, j] != target
      ensures r.None? ==> forall i, j :: 0 <= i < rows && 0 <= j < cols ==> grid[i, j] != target
    {
      var row := 0;
      while row < rows
        invariant 0 <= row <= rows
        invariant forall i, j :: 0 <= i < row && 0 <= j < cols ==> grid[i, j] != target
      {
        var col := 0;
        while col < cols
          invariant 0 <= col <= cols
          invariant forall i, j :: 0 <= i < row && 0 <= j < cols ==> grid[i, j] != target
          invariant forall j :: 0 <= j < col ==> grid[row, j] != target
        {
          if grid[row, col] == target {
            return Some((row, col));
          }
          col := col + 1;
        }
        row := row + 1;
      }
      return None;
    }

    /** `clear`: every cell becomes empty. */
    method Clear()
      requires Valid()
      modifies grid
      ensures forall r, c :: 0 <= r < rows && 0 <= c < cols ==> grid[r, c].None?
    {
      var row := 0;
      while row < rows
        invariant 0 <= row <= rows
        invariant forall i, j :: 0 <= i < row && 0 <= j < cols ==> grid[i, j].None?
      {
        var col := 0;
        while col < cols
          invariant 0 <= col <= cols
          invariant forall i, j :: 0 <= i < row && 0 <= j < cols ==> grid[i, j].None?
          invariant forall j :: 0 <= j < col ==> grid[row, j].None?
        {
          grid[row, col] := None;
          col := col + 1;
        }
        row := row + 1;
      }
    }

    /** `gridToWorld`: the centre of a cell. */
    function GridToWorld(row: int, col: int): Vec2
    {
      Vec2(offsetX + col as real * cellWidth + cellWidth / 2.0,
           offsetY + row as real * cellHeight + cellHeight / 2.0)
    }

    /** `worldToGrid`: the cell a point falls in, found by truncating toward
        zero, or null when that cell is invalid. */
    function WorldToGrid(x: real, y: real): (r: Option<(int, int)>)
      requires cellWidth != 0.0 && cellHeight != 0.0
      ensures r.Some? ==> IsValidCell(r.value.0, r.value.1)
    {
      var col := TruncToInt((x - offsetX) / cellWidth);
      var row := TruncToInt((y - offsetY) / cellHeight);
      if IsValidCell(row, col) then Some((row, col)) else None
    }

    /** The centre of every valid cell maps back to that cell. */
    lemma GridRoundTrip(row: int, col: int)
      requires cellWidth > 0.0 && cellHeight > 0.0
      requires IsValidCell(row, col)
      ensures WorldToGrid(GridToWorld(row, col).x, GridToWorld(row, col).y) == Some((row, col))
    {
      var p := GridToWorld(row, col);
      CentreTruncates(col, offsetX, cellWidth);
      CentreTruncates(row, offsetY, cellHeight);
      assert TruncToInt((p.x - offsetX) / cellWidth) == col;
      assert TruncToInt((p.y - offsetY) / cellHeight) == row;
    }

    /** Truncation toward zero puts points up to one cell before the grid's
        origin into row or column 0, so such points left of or above the grid
        still map to a cell. */
    lemma WorldToGridBeforeOrigin(x: real, y: real)
      requires cellWidth > 0.0 && cellHeight > 0.0
      requires offsetX - cellWidth < x < offsetX + cellWidth
      requires offsetY - cellHeight < y < offsetY + cellHeight
      requires rows > 0 && cols > 0
      ensures WorldToGrid(x, y) == Some((0, 0))
    {
      TruncBelowOne(x - offsetX, cellWidth);
      TruncBelowOne(y - offsetY, cellHeight);
    }
  }

  /** The centre of cell `k` along one axis truncates back to `k`. */
  lemma CentreTruncates(k: nat, offset: real, size: real)
    requires size > 0.0
    ensures TruncToInt(((offset + k as real * size + size / 2.0) - offset) / size) == k
  {
    var n := (offset + k as real * size + size / 2.0) - offset;
    var h := k as real + 0.5;
    assert n == h * size;
    DivCancel(h, size);
  }

  lemma DivCancel(h: real, size: real)
    requires size > 0.0
    ensures (h * size) / size == h
  {
  }

  /** A distance of less than one cell either way truncates to 0. */
  lemma TruncBelowOne(d: real, size: real)
    requires size > 0.0 && -size < d < size
    ensures TruncToInt(d / size) == 0
  {
    if d >= 0.0 {
      DivBelowOne(d, size);
    } else {
      DivBelowOne(-d, size);
      assert -(d / size) == (-d) / size;
    }
  }

  lemma DivBelowOne(n: real, size: real)
    requires 0.0 <= n < size
    ensures 0.0 <= n / size < 1.0
  {
    var q := n / size;
    assert q * size == n;
  }
}
