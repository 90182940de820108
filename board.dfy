/**
  The board of the squares game as a value, and what the game's read-only
  queries compute on it: the occupied-cell count that decides the turn, the
  full-board test, the first empty cell in row-major order, and the square
  detector of SquaresGame.checkSquare, next to a geometric definition of a
  square to judge it by.

  A grid is indexed like the Java board: g[x][y] is row x, column y. The
  queries scan the n × n region starting at (0, 0), where n is the game's
  size field, which need not equal the grid's own dimension.
 */
module Board {
  datatype Cell = Empty | White | Black

  type Grid = seq<seq<Cell>>

  /** The cell at (x, y); Empty off the grid. */
  function At(g: Grid, x: int, y: int): Cell
  {
    if 0 <= x < |g| && 0 <= y < |g[x]| then g[x][y] else Empty
  }

  predicate InRegion(n: int, x: int, y: int)
  {
    0 <= x < n && 0 <= y < n
  }

  /** A square n × n grid, every cell Empty. */
  function EmptyGrid(n: nat): (g: Grid)
    ensures |g| == n && forall i :: 0 <= i < n ==> |g[i]| == n
    ensures forall x, y :: At(g, x, y) == Empty
  {
    seq(n, _ => seq(n, _ => Empty))
  }

  /** g with cell (x, y) replaced by c, when (x, y) is on the grid. */
  function Place(g: Grid, x: int, y: int, c: Cell): (r: Grid)
    ensures |r| == |g| && forall i :: 0 <= i < |g| ==> |r[i]| == |g[i]|
    ensures forall i, j :: At(r, i, j) == if i == x && j == y && 0 <= x < |g| && 0 <= y < |g[x]| then c else At(g, i, j)
  {
    if 0 <= x < |g| && 0 <= y < |g[x]| then g[x := g[x][y := c]] else g
  }

  /** Two grids of the same shape that agree on every cell are equal. */
  lemma SameCells(g1: Grid, g2: Grid)
    requires |g1| == |g2| && forall i :: 0 <= i < |g1| ==> |g1[i]| == |g2[i]|
    requires forall i, j :: At(g1, i, j) == At(g2, i, j)
    ensures g1 == g2
  {
    forall i | 0 <= i < |g1|
      ensures g1[i] == g2[i]
    {
      forall j | 0 <= j < |g1[i]|
        ensures g1[i][j] == g2[i][j]
      {
        assert At(g1, i, j) == At(g2, i, j);
      }
    }
  }

  // ---------------------------------------------------------------------
  // Counting, fullness and the first empty cell
  // ---------------------------------------------------------------------

  /** Occupied cells of row x among columns 0 .. k-1. */
  function RowCount(g: Grid, x: int, k: int): nat
    decreases k
  {
    if k <= 0 then 0 else RowCount(g, x, k - 1) + (if At(g, x, k - 1) != Empty then 1 else 0)
  }

  /** Occupied cells of rows 0 .. k-1 among columns 0 .. n-1. */
  function RowsCount(g: Grid, n: int, k: int): nat
    decreases k
  {
    if k <= 0 then 0 else RowsCount(g, n, k - 1) + RowCount(g, k - 1, n)
  }

  /** The number of moves made so far, as the turn rule counts them: non-Empty cells of the n × n region. */
  function CountOccupied(g: Grid, n: int): nat
  {
    RowsCount(g, n, n)
  }

  /** No cell of the n × n region is Empty. */
  ghost predicate Full(g: Grid, n: int)
  {
    forall x, y :: InRegion(n, x, y) ==> At(g, x, y) != Empty
  }

  /** (x, y) is the first Empty cell of the n × n region in row-major order. */
  ghost predicate IsFirstEmpty(g: Grid, n: int, x: int, y: int)
  {
    InRegion(n, x, y) && At(g, x, y) == Empty &&
    forall i, j :: InRegion(n, i, j) && (i < x || (i == x && j < y)) ==> At(g, i, j) != Empty
  }

  /** The row-major first empty cell is unique, so the automated player's choice is determined. */
  lemma FirstEmptyUnique(g: Grid, n: int, x1: int, y1: int, x2: int, y2: int)
    requires IsFirstEmpty(g, n, x1, y1) && IsFirstEmpty(g, n, x2, y2)
    ensures x1 == x2 && y1 == y2
  {
  }

  lemma {:induction false} RowCountPlace(g: Grid, x: int, y: int, c: Cell, i: int, k: int)
    requires 0 <= x < |g| && 0 <= y < |g[x]| && At(g, x, y) == Empty && c != Empty
    ensures RowCount(Place(g, x, y, c), i, k) == RowCount(g, i, k) + (if i == x && 0 <= y < k then 1 else 0)
    decreases k
  {
    if k > 0 {
      RowCountPlace(g, x, y, c, i, k - 1);
    }
  }

  lemma {:induction false} RowsCountPlace(g: Grid, n: int, x: int, y: int, c: Cell, k: int)
    requires 0 <= x < |g| && 0 <= y < |g[x]| && At(g, x, y) == Empty && c != Empty && y < n
    ensures RowsCount(Place(g, x, y, c), n, k) == RowsCount(g, n, k) + (if x < k then 1 else 0)
    decreases k
  {
    if k > 0 {
      RowsCountPlace(g, n, x, y, c, k - 1);
      RowCountPlace(g, x, y, c, k - 1, n);
    }
  }

  /**
    Placing a token on an Empty cell of the region adds exactly one to the
    count, so the parity, and with it the player to move, changes.
   */
  lemma CountAfterPlace(g: Grid, n: int, x: int, y: int, c: Cell)
    requires 0 <= x < |g| && 0 <= y < |g[x]| && InRegion(n, x, y)
    requires At(g, x, y) == Empty && c != Empty
    ensures CountOccupied(Place(g, x, y, c), n) == CountOccupied(g, n) + 1
    ensures CountOccupied(Place(g, x, y, c), n) % 2 == 1 - CountOccupied(g, n) % 2
  {
    RowsCountPlace(g, n, x, y, c, n);
  }

  lemma {:induction false} RowsCountEmpty(n: nat, k: int)
    ensures RowsCount(EmptyGrid(n), n, k) == 0
    decreases k
  {
    if k > 0 {
      RowsCountEmpty(n, k - 1);
      RowCountEmpty(n, k - 1, n);
    }
  }

  lemma {:induction false} RowCountEmpty(n: nat, x: int, k: int)
    ensures RowCount(EmptyGrid(n), x, k) == 0
    decreases k
  {
    if k > 0 {
      RowCountEmpty(n, x, k - 1);
    }
  }

  /** A fresh board counts no moves, so player 1 moves first. */
  lemma CountEmptyGrid(n: nat)
    ensures CountOccupied(EmptyGrid(n), n) == 0
  {
    RowsCountEmpty(n, n);
  }

  // ---------------------------------------------------------------------
  // The square detector as written, and squares as geometry
  // ---------------------------------------------------------------------

  /** (x, y) is in the region and holds t. */
  predicate Holds(g: Grid, n: int, t: Cell, x: int, y: int)
  {
    InRegion(n, x, y) && At(g, x, y) == t
  }

  /**
    The test checkSquare applies to one pair (x1, y1), (x2, y2): both hold t,
    x2 > x1 and y2 > y1 strictly, and with (dx, dy) = (x2 - x1, y2 - y1) one of
    the two quarter-turned copies of the side, shifted by (dy, -dx) or by
    (-dy, dx), also has both ends holding t inside the region.
   */
  predicate Candidate(g: Grid, n: int, t: Cell, x1: int, y1: int, x2: int, y2: int)
  {
    0 <= x1 < x2 < n && 0 <= y1 < y2 < n && At(g, x1, y1) == t && At(g, x2, y2) == t &&
    (BothHold(g, n, t, x1 + (y2 - y1), y1 - (x2 - x1), x2 + (y2 - y1), y2 - (x2 - x1)) ||
     BothHold(g, n, t, x1 - (y2 - y1), y1 + (x2 - x1), x2 - (y2 - y1), y2 + (x2 - x1)))
  }

  /** Both candidate corners (x3, y3) and (x4, y4) are in the region and hold t. */
  predicate BothHold(g: Grid, n: int, t: Cell, x3: int, y3: int, x4: int, y4: int)
  {
    Holds(g, n, t, x3, y3) && Holds(g, n, t, x4, y4)
  }

  /** What checkSquare reports: some pair passes the test. */
  ghost predicate Detected(g: Grid, n: int, t: Cell)
  {
    exists x1, y1, x2, y2 :: Candidate(g, n, t, x1, y1, x2, y2)
  }

  /**
    The four cells a, a + v, a + v + R(v), a + R(v), with R(v) = (-vy, vx) the
    quarter turn of the side v != (0, 0), all hold t: a square of side v.
   */
  predicate SquareAt(g: Grid, n: int, t: Cell, ax: int, ay: int, vx: int, vy: int)
  {
    (vx != 0 || vy != 0) &&
    Holds(g, n, t, ax, ay) && Holds(g, n, t, ax + vx, ay + vy) &&
    Holds(g, n, t, ax + vx - vy, ay + vy + vx) && Holds(g, n, t, ax - vy, ay + vx)
  }

  /** Four cells holding t are the corners of a square of any size and orientation. */
  ghost predicate HasSquare(g: Grid, n: int, t: Cell)
  {
    exists ax, ay, vx, vy :: SquareAt(g, n, t, ax, ay, vx, vy)
  }

  /** As HasSquare, for squares whose sides are not parallel to the board's edges. */
  ghost predicate HasTiltedSquare(g: Grid, n: int, t: Cell)
  {
    exists ax, ay, vx, vy :: vx != 0 && vy != 0 && SquareAt(g, n, t, ax, ay, vx, vy)
  }

  /**
    The detector is exact for tilted squares: it reports a square exactly
    when four cells holding t form a square whose sides are not parallel
    to the board's edges.
   */
  lemma DetectedIffTilted(g: Grid, n: int, t: Cell)
    ensures Detected(g, n, t) <==> HasTiltedSquare(g, n, t)
  {
    if Detected(g, n, t) {
      var x1, y1, x2, y2 :| Candidate(g, n, t, x1, y1, x2, y2);
      var dx, dy := x2 - x1, y2 - y1;
      if BothHold(g, n, t, x1 + dy, y1 - dx, x2 + dy, y2 - dx) {
        assert SquareAt(g, n, t, x1 + dy, y1 - dx, dx, dy);
      } else {
        assert SquareAt(g, n, t, x1, y1, dx, dy);
      }
    }
    if HasTiltedSquare(g, n, t) {
      var ax, ay, vx, vy :| vx != 0 && vy != 0 && SquareAt(g, n, t, ax, ay, vx, vy);
      if vx > 0 && vy > 0 {
        assert Candidate(g, n, t, ax, ay, ax + vx, ay + vy);
      } else if vx < 0 && vy < 0 {
        assert Candidate(g, n, t, ax + vx, ay + vy, ax, ay);
      } else if vx > 0 {
        assert Candidate(g, n, t, ax, ay, ax - vy, ay + vx);
      } else {
        assert Candidate(g, n, t, ax - vy, ay + vx, ax, ay);
      }
    }
  }

  /**
    Squares with sides parallel to the edges are not detected: if the only
    cells of the region holding t are the corners of such a square, of any
    side k, then there is a square but the detector does not report one.
   */
  lemma AxisAlignedMissed(g: Grid, n: int, t: Cell, a: int, b: int, k: int)
    requires k > 0
    requires Holds(g, n, t, a, b) && Holds(g, n, t, a, b + k) && Holds(g, n, t, a + k, b) && Holds(g, n, t, a + k, b + k)
    requires forall x, y :: Holds(g, n, t, x, y) ==>
               (x == a || x == a + k) && (y == b || y == b + k)
    ensures HasSquare(g, n, t)
    ensures !Detected(g, n, t)
  {
    assert SquareAt(g, n, t, a, b, k, 0);
    if Detected(g, n, t) {
      var x1, y1, x2, y2 :| Candidate(g, n, t, x1, y1, x2, y2);
      assert Holds(g, n, t, x1, y1) && Holds(g, n, t, x2, y2);
      assert false;
    }
  }

  /**
    On the smallest board (3 × 3) the only square the detector can report is
    the diamond (0, 1), (1, 0), (1, 2), (2, 1).
   */
  lemma DetectedOnThree(g: Grid, t: Cell)
    ensures Detected(g, 3, t) <==>
      At(g, 0, 1) == t && At(g, 1, 0) == t && At(g, 1, 2) == t && At(g, 2, 1) == t
  {
    if At(g, 0, 1) == t && At(g, 1, 0) == t && At(g, 1, 2) == t && At(g, 2, 1) == t {
      assert Candidate(g, 3, t, 0, 1, 1, 2);
    }
    if Detected(g, 3, t) {
      var x1, y1, x2, y2 :| Candidate(g, 3, t, x1, y1, x2, y2);
      if BothHold(g, 3, t, x1 + (y2 - y1), y1 - (x2 - x1), x2 + (y2 - y1), y2 - (x2 - x1)) {
        assert x1 == 0 && y1 == 1 && x2 == 1 && y2 == 2;
      } else {
        assert x1 == 1 && y1 == 0 && x2 == 2 && y2 == 1;
      }
    }
  }

  /** A board with a single token of colour t has no square of that colour. */
  lemma OneTokenNoSquare(g: Grid, n: int, t: Cell, x: int, y: int)
    requires t != Empty
    requires forall i, j :: InRegion(n, i, j) && At(g, i, j) != Empty ==> i == x && j == y
    ensures !Detected(g, n, t)
  {
  }

  /** The board turned a quarter: the cell at (x, y) moves to (y, n - 1 - x). */
  function Rotate(g: Grid, n: nat): (r: Grid)
    ensures |r| == n && forall i :: 0 <= i < n ==> |r[i]| == n
    ensures forall x, y :: InRegion(n, x, y) ==> At(r, y, n - 1 - x) == At(g, x, y)
    ensures forall x, y :: InRegion(n, x, y) ==> At(r, x, y) == At(g, n - 1 - y, x)
  {
    var r := seq(n, i => seq(n, j => At(g, n - 1 - j, i)));
    assert forall x, y :: InRegion(n, x, y) ==> At(r, y, n - 1 - x) == r[y][n - 1 - x];
    r
  }

  /** A tilted square of g, turned with the board, is a tilted square of the turned board. */
  lemma RotateSquare(g: Grid, n: nat, t: Cell, ax: int, ay: int, vx: int, vy: int)
    requires SquareAt(g, n, t, ax, ay, vx, vy)
    ensures SquareAt(Rotate(g, n), n, t, ay, n - 1 - ax, vy, -vx)
  {
    var r := Rotate(g, n);
    assert At(r, ay, n - 1 - ax) == At(g, ax, ay);
    assert At(r, ay + vy, n - 1 - (ax + vx)) == At(g, ax + vx, ay + vy);
    assert At(r, ay + vy + vx, n - 1 - (ax + vx - vy)) == At(g, ax + vx - vy, ay + vy + vx);
    assert At(r, ay + vx, n - 1 - (ax - vy)) == At(g, ax - vy, ay + vx);
  }

  /** A square of the turned board, turned back, is a square of g. */
  lemma UnrotateSquare(g: Grid, n: nat, t: Cell, px: int, py: int, wx: int, wy: int)
    requires SquareAt(Rotate(g, n), n, t, px, py, wx, wy)
    ensures SquareAt(g, n, t, n - 1 - py, px, -wy, wx)
  {
    var r := Rotate(g, n);
    assert At(r, px, py) == At(g, n - 1 - py, px);
    assert At(r, px + wx, py + wy) == At(g, n - 1 - (py + wy), px + wx);
    assert At(r, px + wx - wy, py + wy + wx) == At(g, n - 1 - (py + wy + wx), px + wx - wy);
    assert At(r, px - wy, py + wx) == At(g, n - 1 - (py + wx), px - wy);
  }

  /** The detector's answer does not change when the board is turned a quarter. */
  lemma RotationInvariant(g: Grid, n: nat, t: Cell)
    ensures Detected(Rotate(g, n), n, t) <==> Detected(g, n, t)
  {
    var r := Rotate(g, n);
    DetectedIffTilted(g, n, t);
    DetectedIffTilted(r, n, t);
    if HasTiltedSquare(g, n, t) {
      var ax, ay, vx, vy :| vx != 0 && vy != 0 && SquareAt(g, n, t, ax, ay, vx, vy);
      RotateSquare(g, n, t, ax, ay, vx, vy);
    }
    if HasTiltedSquare(r, n, t) {
      var px, py, wx, wy :| wx != 0 && wy != 0 && SquareAt(r, n, t, px, py, wx, wy);
      UnrotateSquare(g, n, t, px, py, wx, wy);
    }
  }
}
