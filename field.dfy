/** The field of the quantum Game of Life: a rectangular grid of cells, each of
    which must be 0 (dead) or 1 (alive). The source stores it as a floating-point
    numpy array and compares cells after rounding to ten decimals; here cells are
    integers, so rounding is the identity and every value other than 0 and 1 is
    the invalid case. */
module Field {

  type Grid = seq<seq<int>>

  /** The `ValueError` that `invertField` raises. */
  datatype FieldError = InvalidFieldValue

  datatype Result<T> = Ok(value: T) | Err(error: FieldError)

  /** Number of columns (the second numpy dimension) of a grid. */
  function Cols<T>(g: seq<seq<T>>): nat
  {
    if g == [] then 0 else |g[0]|
  }

  /** Every row has the same length, as in a two-dimensional numpy array. */
  predicate IsRect<T>(g: seq<seq<T>>)
  {
    forall i | 0 <= i < |g| :: |g[i]| == Cols(g)
  }

  /** `g` and `h` have the same shape (used for grids of random draws). */
  predicate SameShape<S, T>(g: seq<seq<S>>, h: seq<seq<T>>)
  {
    |g| == |h| && forall i | 0 <= i < |g| :: |g[i]| == |h[i]|
  }

  /** `g` has `rows` rows of `cols` cells each. */
  predicate HasShape<T>(g: seq<seq<T>>, rows: int, cols: int)
  {
    |g| == rows && forall i | 0 <= i < |g| :: |g[i]| == cols
  }

  /** Every cell is 0 or 1. */
  predicate IsBinary(g: Grid)
  {
    forall i, j | 0 <= i < |g| && 0 <= j < |g[i]| :: g[i][j] == 0 || g[i][j] == 1
  }

  predicate NoCellIs(g: Grid, v: int)
  {
    forall i, j | 0 <= i < |g| && 0 <= j < |g[i]| :: g[i][j] != v
  }

  /** Cell `(i, j)` exists and is alive. */
  predicate Alive(g: Grid, i: int, j: int)
  {
    0 <= i < |g| && 0 <= j < |g[i]| && g[i][j] == 1
  }

  /** One draw of `random.random()` per cell, taken in `[0, 1)`. */
  type Draws = seq<seq<real>>

  /** The draw for cell `(i, j)`; a cell outside the grid never draws below 1. */
  function DrawAt(d: Draws, i: int, j: int): real
  {
    if 0 <= i < |d| && 0 <= j < |d[i]| then d[i][j] else 1.0
  }

  /** `checkIfFieldCompleteZero`: no cell is alive. */
  predicate CompleteZero(g: Grid)
  {
    NoCellIs(g, 1)
  }

  /** `checkIfFieldCompleteOne`: no cell is dead. */
  predicate CompleteOne(g: Grid)
  {
    NoCellIs(g, 0)
  }

  function FlipRow(r: seq<int>): seq<int>
  {
    seq(|r|, j requires 0 <= j < |r| => if r[j] == 0 then 1 else 0)
  }

  /** The cell-wise swap of 0 and 1 that `invertField` performs on a valid field. */
  function Flip(g: Grid): (h: Grid)
    ensures |h| == |g| && Cols(h) == Cols(g) && SameShape(h, g)
    ensures IsRect(g) ==> IsRect(h)
  {
    seq(|g|, i requires 0 <= i < |g| => FlipRow(g[i]))
  }

  /** What `invertField` returns: the swapped field, or the error when some cell
      is neither 0 nor 1. */
  function Inverted(g: Grid): Result<Grid>
  {
    if IsBinary(g) then Ok(Flip(g)) else Err(InvalidFieldValue)
  }

  /** `invertField`: fills a fresh field cell by cell, swapping 0 and 1, and
      fails on the first cell that is neither. */
  method InvertField(field: Grid) returns (r: Result<Grid>)
    ensures r == Inverted(field)
    ensures r.Ok? <==> IsBinary(field)
    ensures r.Ok? ==> SameShape(r.value, field) && IsBinary(r.value)
    ensures r.Ok? ==> forall i, j | 0 <= i < |field| && 0 <= j < |field[i]| ::
      r.value[i][j] == 1 - field[i][j]
  {
    var rows: Grid := [];
    var i := 0;
    while i < |field|
      invariant 0 <= i <= |field|
      invariant |rows| == i
      invariant forall k | 0 <= k < i :: rows[k] == FlipRow(field[k])
      invariant forall k, m | 0 <= k < i && 0 <= m < |field[k]| :: field[k][m] == 0 || field[k][m] == 1
    {
      var row: seq<int> := [];
      var j := 0;
      while j < |field[i]|
        invariant 0 <= j <= |field[i]|
        invariant |row| == j
        invariant forall m | 0 <= m < j :: row[m] == (if field[i][m] == 0 then 1 else 0)
        invariant forall m | 0 <= m < j :: field[i][m] == 0 || field[i][m] == 1
      {
        if field[i][j] == 0 {
          row := row + [1];
        } else if field[i][j] == 1 {
          row := row + [0];
        } else {
          return Err(InvalidFieldValue);
        }
        j := j + 1;
      }
      rows := rows + [row];
      i := i + 1;
    }
    assert rows == Flip(field);
    return Ok(rows);
  }

  /** Scans the field in row-major order and stops at the first cell equal to `v`. */
  method NoCellEquals(field: Grid, v: int) returns (b: bool)
    ensures b <==> forall i, j | 0 <= i < |field| && 0 <= j < |field[i]| :: field[i][j] != v
  {
    var i := 0;
    while i < |field|
      invariant 0 <= i <= |field|
      invariant forall k, m | 0 <= k < i && 0 <= m < |field[k]| :: field[k][m] != v
    {
      var j := 0;
      while j < |field[i]|
        invariant 0 <= j <= |field[i]|
        invariant forall m | 0 <= m < j :: field[i][m] != v
      {
        if field[i][j] == v {
          return false;
        }
        j := j + 1;
      }
      i := i + 1;
    }
    return true;
  }

  /** `checkIfFieldCompleteZero`: false as soon as a cell equals 1. */
  method CheckIfFieldCompleteZero(field: Grid) returns (b: bool)
    ensures b == CompleteZero(field)
    ensures IsBinary(field) ==> (b <==> forall i, j | 0 <= i < |field| && 0 <= j < |field[i]| :: field[i][j] == 0)
  {
    b := NoCellEquals(field, 1);
  }

  /** `checkIfFieldCompleteOne`: false as soon as a cell equals 0. */
  method CheckIfFieldCompleteOne(field: Grid) returns (b: bool)
    ensures b == CompleteOne(field)
    ensures IsBinary(field) ==> (b <==> forall i, j | 0 <= i < |field| && 0 <= j < |field[i]| :: field[i][j] == 1)
  {
    b := NoCellEquals(field, 0);
  }

  /** `intializeField` with the default coverage 0: `height` rows of `width`
      dead cells (numpy shape `(height, width)`). */
  function InitializeField(width: nat, height: nat): (g: Grid)
    ensures |g| == height && IsRect(g) && IsBinary(g) && CompleteZero(g)
    ensures forall i | 0 <= i < height :: |g[i]| == width
  {
    seq(height, i => seq(width, j => 0))
  }

  /** Inverting a valid field twice gives it back, and inversion exchanges the
      two halting predicates. */
  lemma {:induction false} InvertTwice(g: Grid)
    requires IsBinary(g)
    ensures Inverted(g).Ok? && Inverted(Inverted(g).value) == Ok(g)
    ensures CompleteZero(Flip(g)) <==> CompleteOne(g)
    ensures CompleteOne(Flip(g)) <==> CompleteZero(g)
  {
    var h := Flip(g);
    assert IsBinary(h);
    assert |Flip(h)| == |g|;
    forall i | 0 <= i < |g| ensures Flip(h)[i] == g[i] {
      assert FlipRow(h[i]) == g[i];
    }
    assert Flip(h) == g;
    if CompleteZero(h) {
      forall i, j | 0 <= i < |g| && 0 <= j < |g[i]| ensures g[i][j] != 0 {
        assert h[i][j] != 1;
      }
    }
    if CompleteOne(h) {
      forall i, j | 0 <= i < |g| && 0 <= j < |g[i]| ensures g[i][j] != 1 {
        assert h[i][j] != 0;
      }
    }
  }

  /** A non-empty valid field cannot satisfy both halting predicates. */
  lemma CompleteExclusive(g: Grid)
    requires IsBinary(g) && |g| > 0 && |g[0]| > 0
    ensures !(CompleteZero(g) && CompleteOne(g))
  {
    assert g[0][0] == 0 || g[0][0] == 1;
  }
}
