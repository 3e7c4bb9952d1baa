/**
 * The food entity of src/objects/food.rs: a square hitbox of half-width
 * `radius` centred on `position`, moved to a table cell whenever the
 * player has touched it. Random row and column choices are parameters.
 */
module Food {
  import opened Wrappers
  import opened Board
  import Collider

  /**
   * The row and column a spawn may use: `row` and `col` are in the ranges
   * the random draws take them from (which needs a non-empty table), and
   * row `row` is long enough to be indexed at `col`.
   */
  predicate ValidPick(b: Board, row: nat, col: nat) {
    && row < |b.midpoints|
    && col < |b.midpoints[0].1|
    && col < |b.midpoints[row].1|
  }

  /**
   * The position `get_new_pos` as written gives the food for the draws `row`
   * and `col`: the column centre becomes y and the row centre becomes x.
   */
  function SpawnPosition(b: Board, row: nat, col: nat): (r: Position)
    requires ValidPick(b, row, col)
    ensures r == Position(CellCentreAt(b, row, col).y, CellCentreAt(b, row, col).x)
  {
    Position(b.midpoints[row].0, b.midpoints[row].1[col])
  }

  /**
   * Where the food was evidently meant to go: the centre of the cell in
   * row `row` and column `col`, with x from the column and y from the row
   * as `current_midpts` reads the table.
   */
  function CellCentreAt(b: Board, row: nat, col: nat): Position
    requires ValidPick(b, row, col)
  {
    Position(b.midpoints[row].1[col], b.midpoints[row].0)
  }

  /** On a laid table, the corrected spawn is a cell centre: the lookup returns it unchanged. */
  lemma CellCentreIsFixed(b: Board, nx: nat, ny: nat, row: nat, col: nat)
    requires Laid(b, nx, ny)
    requires row < ny && col < nx
    ensures CurrentMidpts(b, CellCentreAt(b, row, col)) == Some(CellCentreAt(b, row, col))
  {
    var g := b.gridSize;
    var p := CellCentreAt(b, row, col);
    assert p == Position(Centre(col, g), Centre(row, g));
    CellOfCentre(row, g);
    CellOfCentre(col, g);
    CurrentMidptsCell(b, nx, ny, p);
  }

  /** The spawn point is the centre of cell (row, col) with its two coordinates exchanged. */
  lemma SpawnTransposed(b: Board, nx: nat, ny: nat, row: nat, col: nat)
    requires Laid(b, nx, ny)
    requires row < ny && col < nx
    ensures SpawnPosition(b, row, col) == Position(Centre(row, b.gridSize), Centre(col, b.gridSize))
    ensures CellCentreAt(b, row, col) == Position(Centre(col, b.gridSize), Centre(row, b.gridSize))
  {
  }

  /** On a square table the exchange is harmless: the spawn point is itself a cell centre. */
  lemma SpawnOnSquareBoard(b: Board, n: nat, row: nat, col: nat)
    requires Laid(b, n, n)
    requires row < n && col < n
    ensures CurrentMidpts(b, SpawnPosition(b, row, col)) == Some(SpawnPosition(b, row, col))
  {
    assert SpawnPosition(b, row, col) == CellCentreAt(b, col, row);
    CellCentreIsFixed(b, n, n, col, row);
  }

  /**
   * On a table three cells wide and two high (a 75 by 50 screen with
   * 25-unit cells), the draw row 0, column 2 puts the food below the
   * bottom row, where no cell is.
   */
  lemma SpawnOffBoard()
    ensures var b := Board([(12.5, [12.5, 37.5, 62.5]), (37.5, [12.5, 37.5, 62.5])], 25.0, 75.0, 50.0);
      && ValidPick(b, 0, 2)
      && Laid(b, 3, 2)
      && SpawnPosition(b, 0, 2).y > b.height
      && CurrentMidpts(b, SpawnPosition(b, 0, 2)) == None
  {
    var b := Board([(12.5, [12.5, 37.5, 62.5]), (37.5, [12.5, 37.5, 62.5])], 25.0, 75.0, 50.0);
    assert CellIndex(62.5, 25.0) == 2 by {
      assert 2.0 * 25.0 <= 62.5 < 3.0 * 25.0;
    }
  }

  /** The corrected spawn lies inside the board on every laid table, whatever its shape. */
  lemma CellCentreOnBoard(b: Board, nx: nat, ny: nat, row: nat, col: nat)
    requires Laid(b, nx, ny)
    requires row < ny && col < nx
    requires b.width == nx as real * b.gridSize && b.height == ny as real * b.gridSize
    ensures var p := CellCentreAt(b, row, col);
      && 0.0 < p.x < b.width
      && 0.0 < p.y < b.height
  {
    var g := b.gridSize;
    assert CellCentreAt(b, row, col) == Position(Centre(col, g), Centre(row, g));
    CentreInside(col, nx, g);
    CentreInside(row, ny, g);
  }

  /** The square of half-width `radius` around `position` (`collider`). */
  function Hitbox(position: Position, radius: real): (r: Collider.AABB)
    ensures Collider.Ordered(r) <==> radius >= 0.0
    ensures radius >= 0.0 ==> Collider.Contains(r, position)
    ensures r.max.x - r.min.x == 2.0 * radius && r.max.y - r.min.y == 2.0 * radius
  {
    Collider.NewAabb(
      Position(position.x - radius, position.y - radius),
      Position(position.x + radius, position.y + radius))
  }

  /** Some box of `boxes` intersects `own` (the `any` in `check_collision`). */
  predicate AnyIntersects(own: Collider.AABB, boxes: seq<Collider.AABB>) {
    exists i :: 0 <= i < |boxes| && Collider.Intersects(own, boxes[i])
  }

  /** The `iter().any(...)` of `check_collision`, box by box. */
  method ScanBoxes(own: Collider.AABB, boxes: seq<Collider.AABB>) returns (hit: bool)
    ensures hit <==> AnyIntersects(own, boxes)
  {
    hit := false;
    var i := 0;
    while i < |boxes| && !hit
      invariant 0 <= i <= |boxes|
      invariant hit <==> exists k :: 0 <= k < i && Collider.Intersects(own, boxes[k])
    {
      hit := Collider.Intersects(own, boxes[i]);
      i := i + 1;
    }
  }

  /** A point of the food's square that is also in a player box means a hit is seen. */
  lemma CommonPointIsHit(position: Position, radius: real, boxes: seq<Collider.AABB>, i: nat, p: Position)
    requires radius >= 0.0
    requires i < |boxes| && Collider.Ordered(boxes[i])
    requires Collider.Contains(Hitbox(position, radius), p) && Collider.Contains(boxes[i], p)
    ensures AnyIntersects(Hitbox(position, radius), boxes)
  {
    Collider.IntersectsIffCommonPoint(Hitbox(position, radius), boxes[i]);
  }

  class Food {
    var radius: real
    var position: Position
    var collidedWithPlayer: bool

    /** `Food::new`: no size yet, at the origin, and flagged so the first tick places it. */
    constructor ()
      ensures radius == 0.0 && position == Position(0.0, 0.0) && collidedWithPlayer
    {
      radius := 0.0;
      position := Position(0.0, 0.0);
      collidedWithPlayer := true;
    }

    /**
     * `get_new_pos` as written: move to the spawn point for the draws `row`
     * and `col`, the centre of that cell with its coordinates exchanged.
     */
    method GetNewPos(b: Board, row: nat, col: nat)
      requires ValidPick(b, row, col)
      modifies this`position
      ensures position == SpawnPosition(b, row, col)
    {
      var y := b.midpoints[row].1[col];
      var x := b.midpoints[row].0;
      position := Position(x, y);
    }

    /** `on_setup`: half a cell as radius, then a fresh spawn point; the flag is left alone. */
    method OnSetup(b: Board, row: nat, col: nat)
      requires ValidPick(b, row, col)
      modifies this`radius, this`position
      ensures radius == b.gridSize / 2.0
      ensures position == SpawnPosition(b, row, col)
    {
      radius := b.gridSize / 2.0;
      GetNewPos(b, row, col);
    }

    /**
     * `on_tick` without its drawing: a flagged food moves to the spawn point
     * and the flag is cleared; otherwise nothing changes.
     */
    method OnTick(b: Board, row: nat, col: nat)
      requires collidedWithPlayer ==> ValidPick(b, row, col)
      modifies this`position, this`collidedWithPlayer
      ensures !collidedWithPlayer
      ensures old(collidedWithPlayer) ==> position == SpawnPosition(b, row, col)
      ensures !old(collidedWithPlayer) ==> position == old(position)
    {
      if collidedWithPlayer {
        GetNewPos(b, row, col);
        collidedWithPlayer := false;
      }
    }

    /** `layer`: food is always on the Food layer. */
    function Layer(): (l: Collider.ColliderLayer)
      ensures l == Collider.Food
    {
      Collider.Food
    }

    /** `collider`: exactly one box, the square of half-width `radius` around `position`. */
    function Boxes(): (r: seq<Collider.AABB>)
      reads this
      ensures |r| == 1
      ensures r[0].min == Position(position.x - radius, position.y - radius)
      ensures r[0].max == Position(position.x + radius, position.y + radius)
    {
      [Hitbox(position, radius)]
    }

    /**
     * `check_collision`: against a Player, the flag is raised when the food's
     * box intersects one of the other's boxes; it is never cleared here and
     * the food does not move.
     */
    method CheckCollision(otherLayer: Collider.ColliderLayer, otherBoxes: seq<Collider.AABB>)
      modifies this`collidedWithPlayer
      ensures collidedWithPlayer == (old(collidedWithPlayer) ||
        (otherLayer == Collider.Player && AnyIntersects(Boxes()[0], otherBoxes)))
    {
      if otherLayer != Collider.Player {
        return;
      }
      var own := Boxes()[0];
      var isIntersect := ScanBoxes(own, otherBoxes);
      if isIntersect {
        collidedWithPlayer := true;
      }
    }
  }
}
