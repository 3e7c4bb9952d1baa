/**
 * The playfield grid of src/app/board.rs: a row-major table of cell
 * centres built from the screen size and the cell size, and the lookup
 * from a position to the centre of the cell that contains it.
 *
 * `f32` values are modelled as `real`. The `u16` inputs are integers
 * below 65536, so the `f32` quotient of two of them never rounds across
 * an integer and `(a as f32 / b as f32) as usize` is `a / b`.
 */
module Board {
  import opened Wrappers

  type U16 = x: nat | x < 0x1_0000

  /** A point in board space (`Position`, board.rs:2-5). */
  datatype Position = Position(x: real, y: real)

  /**
   * `midpoints[i]` is (centre y of row i, centres x of the columns of row i).
   */
  datatype Board = Board(midpoints: seq<(real, seq<real>)>, gridSize: real, width: real, height: real)

  /** Centre of cell `k` along one axis for cells of size `g`. */
  function Centre(k: nat, g: real): real {
    (k as real + 0.5) * g
  }

  /** `m` has `ny` rows of `nx` columns, each entry the centre of its cell of size `g`. */
  ghost predicate RowsLaid(m: seq<(real, seq<real>)>, nx: nat, ny: nat, g: real) {
    && |m| == ny
    && (forall i :: 0 <= i < ny ==> m[i].0 == Centre(i, g))
    && (forall i :: 0 <= i < ny ==> |m[i].1| == nx)
    && (forall i, j :: 0 <= i < ny && 0 <= j < |m[i].1| ==> m[i].1[j] == Centre(j, g))
  }

  /** The table of `b` has `ny` rows of `nx` columns, each entry the centre of its cell. */
  ghost predicate Laid(b: Board, nx: nat, ny: nat) {
    b.gridSize > 0.0 && RowsLaid(b.midpoints, nx, ny, b.gridSize)
  }

  /** Every row has as many columns as the first one. */
  ghost predicate Rectangular(b: Board) {
    forall i :: 0 <= i < |b.midpoints| ==> |b.midpoints[i].1| == |b.midpoints[0].1|
  }

  /** `b` is what `Board::new(w, h, g)` produces. */
  ghost predicate Built(b: Board, w: U16, h: U16, g: U16)
    requires g > 0
  {
    && b.gridSize == g as real
    && Laid(b, w / g, h / g)
    && b.width == ((w / g) * g) as real
    && b.height == ((h / g) * g) as real
  }

  /**
   * `Board::new`: `w / g` columns and `h / g` rows of cells of size `g`; the
   * board is the largest whole number of cells that fits the screen.
   */
  method NewBoard(screenW: U16, screenH: U16, gridSize: U16) returns (b: Board)
    requires gridSize > 0
    ensures Built(b, screenW, screenH, gridSize)
    ensures Rectangular(b)
    ensures b.width <= screenW as real && b.height <= screenH as real
    ensures screenW as real - b.width < gridSize as real && screenH as real - b.height < gridSize as real
  {
    var nX := screenW / gridSize;
    var nY := screenH / gridSize;
    var midpoints := LayRows(nX, nY, gridSize as real);
    FitsScreen(screenW, gridSize);
    FitsScreen(screenH, gridSize);
    b := Board(midpoints, gridSize as real, (nX * gridSize) as real, (nY * gridSize) as real);
    LaidRectangular(b, nX, nY);
  }

  /** The outer loop of `Board::new`: `ny` rows, each its centre y and the `nx` column centres. */
  method LayRows(nx: nat, ny: nat, g: real) returns (midpoints: seq<(real, seq<real>)>)
    ensures RowsLaid(midpoints, nx, ny, g)
  {
    midpoints := [];
    for i := 0 to ny
      invariant RowsLaid(midpoints, nx, i, g)
    {
      var y := (i as real + 0.5) * g;
      var rowMidpts := RowMidpts(nx, g);
      RowsLaidPush(midpoints, nx, i, g, rowMidpts);
      midpoints := midpoints + [(y, rowMidpts)];
    }
  }

  /** Appending row `i`, with its centre and its `nx` column centres, extends a laid table by one row. */
  lemma RowsLaidPush(m: seq<(real, seq<real>)>, nx: nat, i: nat, g: real, row: seq<real>)
    requires RowsLaid(m, nx, i, g)
    requires |row| == nx && forall c :: 0 <= c < nx ==> row[c] == Centre(c, g)
    ensures RowsLaid(m + [(Centre(i, g), row)], nx, i + 1, g)
  {
    var m' := m + [(Centre(i, g), row)];
    assert forall r :: 0 <= r < i ==> m'[r] == m[r];
    assert m'[i] == (Centre(i, g), row);
  }

  /** A laid table is rectangular. */
  lemma LaidRectangular(b: Board, nx: nat, ny: nat)
    requires Laid(b, nx, ny)
    ensures Rectangular(b)
  {
  }

  /** The inner loop of `Board::new`: the centres of `n` consecutive cells of size `g`. */
  method RowMidpts(n: nat, g: real) returns (row: seq<real>)
    ensures |row| == n
    ensures forall c :: 0 <= c < n ==> row[c] == Centre(c, g)
  {
    row := [];
    for j := 0 to n
      invariant |row| == j
      invariant forall c :: 0 <= c < j ==> row[c] == Centre(c, g)
    {
      var x := (j as real + 0.5) * g;
      row := row + [x];
    }
  }

  /** `w / g` whole cells fit in `w` and leave less than one cell over. */
  lemma FitsScreen(w: nat, g: nat)
    requires g > 0
    ensures (w / g) * g <= w
    ensures w - (w / g) * g < g
  {
    assert w == (w / g) * g + w % g;
  }

  /**
   * The `as usize` cast of `v / g`: truncation toward zero for non-negative
   * quotients, saturating at 0 for negative ones.
   */
  function CellIndex(v: real, g: real): (k: nat)
    requires g > 0.0
    ensures v >= 0.0 ==> k as real * g <= v
    ensures v >= 0.0 ==> v < (k + 1) as real * g
    ensures v < 0.0 ==> k == 0
  {
    if v / g <= 0.0 then
      DivisionNonPositive(v, g);
      0
    else
      FloorBounds(v, g);
      (v / g).Floor
  }

  lemma DivisionNonPositive(v: real, g: real)
    requires g > 0.0 && v / g <= 0.0
    ensures v <= 0.0
  {
    assert (v / g) * g == v;
  }

  lemma FloorBounds(v: real, g: real)
    requires g > 0.0
    ensures (v / g).Floor as real * g <= v
    ensures v < ((v / g).Floor + 1) as real * g
  {
    var q := v / g;
    var f := q.Floor;
    var next := (f + 1) as real;
    assert q < next;
    assert q * g < next * g;
    assert q * g == v;
    assert v < next * g;
  }

  /** `p` is an entry of the table: the column centre and row centre of some cell. */
  ghost predicate InTable(b: Board, p: Position) {
    exists i, j :: 0 <= i < |b.midpoints| && 0 <= j < |b.midpoints[i].1| &&
      p == Position(b.midpoints[i].1[j], b.midpoints[i].0)
  }

  /** `Board::current_midpts`: the centre of the cell containing `pos`, or None off the table. */
  function CurrentMidpts(b: Board, pos: Position): (r: Option<Position>)
    requires b.gridSize > 0.0
    ensures r.Some? ==> InTable(b, r.value)
  {
    var xIdx := CellIndex(pos.x, b.gridSize);
    var yIdx := CellIndex(pos.y, b.gridSize);
    if yIdx < |b.midpoints| && xIdx < |b.midpoints[yIdx].1| then
      Some(Position(b.midpoints[yIdx].1[xIdx], b.midpoints[yIdx].0))
    else
      None
  }

  /** The lookup succeeds exactly for cells inside the table, and then names that cell's centre. */
  lemma CurrentMidptsCell(b: Board, nx: nat, ny: nat, pos: Position)
    requires Laid(b, nx, ny)
    ensures var r := CurrentMidpts(b, pos);
      var i, j := CellIndex(pos.y, b.gridSize), CellIndex(pos.x, b.gridSize);
      && (r.Some? <==> i < ny && j < nx)
      && (r.Some? ==> r.value == Position(Centre(j, b.gridSize), Centre(i, b.gridSize)))
  {
  }

  /** Along one axis the centre of the containing cell is at most half a cell away. */
  lemma CentreNear(v: real, g: real)
    requires g > 0.0 && v >= 0.0
    ensures -g / 2.0 <= Centre(CellIndex(v, g), g) - v <= g / 2.0
  {
  }

  /** For a non-negative position on the table, the lookup moves each coordinate by at most half a cell. */
  lemma CurrentMidptsNear(b: Board, nx: nat, ny: nat, pos: Position)
    requires Laid(b, nx, ny)
    requires pos.x >= 0.0 && pos.y >= 0.0
    requires CurrentMidpts(b, pos).Some?
    ensures var r := CurrentMidpts(b, pos).value;
      && -b.gridSize / 2.0 <= r.x - pos.x <= b.gridSize / 2.0
      && -b.gridSize / 2.0 <= r.y - pos.y <= b.gridSize / 2.0
  {
    CurrentMidptsCell(b, nx, ny, pos);
    CentreNear(pos.x, b.gridSize);
    CentreNear(pos.y, b.gridSize);
  }

  /** A cell centre lies in its own cell. */
  lemma CellOfCentre(k: nat, g: real)
    requires g > 0.0
    ensures CellIndex(Centre(k, g), g) == k
  {
    var c := Centre(k, g);
    var i := CellIndex(c, g);
    if i < k {
      ScaleMonotone((i + 1) as real, k as real + 0.5, g);
    } else if i > k {
      ScaleMonotone(k as real + 0.5, i as real, g);
    }
  }

  /** The centre of cell `k` of `n` lies strictly inside the `n` cells. */
  lemma CentreInside(k: nat, n: nat, g: real)
    requires k < n && g > 0.0
    ensures 0.0 < Centre(k, g) < n as real * g
  {
    assert k as real + 0.5 < n as real;
    ScaleMonotone(0.0, k as real + 0.5, g);
    ScaleMonotone(k as real + 0.5, n as real, g);
  }

  lemma ScaleMonotone(a: real, b: real, g: real)
    requires a < b && g > 0.0
    ensures a * g < b * g
  {
  }

  /** Looking up a centre the lookup returned gives that centre back. */
  lemma CurrentMidptsIdempotent(b: Board, nx: nat, ny: nat, pos: Position)
    requires Laid(b, nx, ny)
    requires CurrentMidpts(b, pos).Some?
    ensures CurrentMidpts(b, CurrentMidpts(b, pos).value) == CurrentMidpts(b, pos)
  {
    var g := b.gridSize;
    var i, j := CellIndex(pos.y, g), CellIndex(pos.x, g);
    CurrentMidptsCell(b, nx, ny, pos);
    var r := CurrentMidpts(b, pos).value;
    CellOfCentre(i, g);
    CellOfCentre(j, g);
    CurrentMidptsCell(b, nx, ny, r);
  }

  /** The saturating cast sends every negative coordinate to cell 0. */
  lemma CurrentMidptsSaturates(b: Board, pos: Position)
    requires b.gridSize > 0.0
    ensures pos.x < 0.0 ==> CurrentMidpts(b, pos) == CurrentMidpts(b, Position(0.0, pos.y))
    ensures pos.y < 0.0 ==> CurrentMidpts(b, pos) == CurrentMidpts(b, Position(pos.x, 0.0))
  {
    assert CellIndex(0.0, b.gridSize) == 0;
  }
}
