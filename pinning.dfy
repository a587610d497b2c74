/** Second pass of `makeStepOne` (qgol.py:82-90): an alive cell whose draw falls
    below the fixing probability has every variable of its block biased by -100,
    which pulls the whole block towards 1. Dead cells are never touched. */
module Pinning {
  import opened Traversal
  import opened Qubo
  import opened Blocks
  import opened Field

  /** The cell is alive and its draw is below `prob`. */
  predicate Pinned(field: Grid, draws: Draws, prob: real, c: Cell)
  {
    Alive(field, c.0, c.1) && DrawAt(draws, c.0, c.1) < prob
  }

  /** `qubo[(k, k)] += -100` for `k` in the block, in order. */
  function PinBlock(b: seq<int>): seq<Update>
  {
    if b == [] then [] else PinBlock(b[..|b| - 1]) + [Update((b[|b| - 1], b[|b| - 1]), -100.0)]
  }

  /** The additions for a cell: its block pinned, or nothing. */
  function PinCell(field: Grid, draws: Draws, prob: real, blocks: BlockMap): Cell -> seq<Update>
  {
    c => if Pinned(field, draws, prob, c) then PinBlock(BlockAt(blocks, c)) else []
  }

  /** The additions of the pass for the cells `cells`, in order. */
  function PinUpdates(field: Grid, draws: Draws, prob: real, blocks: BlockMap, cells: seq<Cell>): seq<Update>
  {
    Gather(PinCell(field, draws, prob, blocks), cells)
  }

  /** Runs the pass over the whole field. */
  method PinningPass(qubo: Weights, n: nat, field: Grid, draws: Draws, prob: real, blocks: BlockMap)
    returns (q: Weights)
    requires IsRect(field) && SameShape(draws, field)
    requires Holds(qubo, n) && Covers(blocks, |field|, Cols(field)) && IndicesBelow(blocks, |field|, Cols(field), n)
    ensures q == Apply(qubo, PinUpdates(field, draws, prob, blocks, Rect(0, |field|, 0, Cols(field))))
    ensures q.Keys == qubo.Keys
  {
    var rows, cols := |field|, Cols(field);
    q := qubo;
    var i := 0;
    while i < rows
      invariant 0 <= i <= rows
      invariant q.Keys == qubo.Keys
      invariant q == Apply(qubo, PinUpdates(field, draws, prob, blocks, Rect(0, i, 0, cols)))
    {
      q := PinRow(q, n, field, draws, prob, blocks, i);
      GatherConcat(PinCell(field, draws, prob, blocks), Rect(0, i, 0, cols), Span(i, 0, cols));
      ApplyConcat(qubo, PinUpdates(field, draws, prob, blocks, Rect(0, i, 0, cols)),
                  PinUpdates(field, draws, prob, blocks, Span(i, 0, cols)));
      i := i + 1;
    }
  }

  /** The loop over the cells of row `i`. */
  method PinRow(w: Weights, n: nat, field: Grid, draws: Draws, prob: real, blocks: BlockMap, i: int)
    returns (q: Weights)
    requires IsRect(field) && SameShape(draws, field) && 0 <= i < |field|
    requires Holds(w, n) && Covers(blocks, |field|, Cols(field)) && IndicesBelow(blocks, |field|, Cols(field), n)
    ensures q == Apply(w, PinUpdates(field, draws, prob, blocks, Span(i, 0, Cols(field))))
    ensures q.Keys == w.Keys
  {
    var cols := Cols(field);
    q := w;
    var j := 0;
    while j < cols
      invariant 0 <= j <= cols
      invariant q.Keys == w.Keys
      invariant q == Apply(w, PinUpdates(field, draws, prob, blocks, Span(i, 0, j)))
    {
      q := VisitPin(w, q, n, field, draws, prob, blocks, i, j);
      j := j + 1;
    }
  }

  /** The body of the loop over row `i` for cell `(i, j)`: an alive cell whose
      draw falls below `prob` pins its block. */
  method VisitPin(w: Weights, v: Weights, n: nat, field: Grid, draws: Draws, prob: real, blocks: BlockMap, i: int, j: int)
    returns (q: Weights)
    requires IsRect(field) && SameShape(draws, field) && 0 <= i < |field| && 0 <= j < Cols(field)
    requires Holds(v, n) && Covers(blocks, |field|, Cols(field)) && IndicesBelow(blocks, |field|, Cols(field), n)
    requires v == Apply(w, PinUpdates(field, draws, prob, blocks, Span(i, 0, j)))
    ensures q == Apply(w, PinUpdates(field, draws, prob, blocks, Span(i, 0, j + 1)))
    ensures q.Keys == v.Keys
  {
    q := v;
    if field[i][j] == 1 {
      if draws[i][j] < prob {
        BlockBelow(blocks, |field|, Cols(field), n, (i, j));
        q := PinBlockPass(v, n, blocks[(i, j)]);
      }
    }
    PinStep(w, v, field, draws, prob, blocks, Span(i, 0, j), (i, j));
    SpanAppend(i, 0, j);
  }

  /** The loop over one pinned block. */
  method PinBlockPass(w: Weights, n: nat, block: seq<int>) returns (q: Weights)
    requires Holds(w, n) && forall x | x in block :: 0 <= x < n
    ensures q == Apply(w, PinBlock(block))
    ensures q.Keys == w.Keys
  {
    q := w;
    var t := 0;
    while t < |block|
      invariant 0 <= t <= |block|
      invariant q.Keys == w.Keys
      invariant q == Apply(w, PinBlock(block[..t]))
    {
      var k := block[t];
      assert (k, k) in q by {
        assert k in block;
      }
      assert block[..t + 1][..t] == block[..t];
      ApplyAppend(w, PinBlock(block[..t]), Update((k, k), -100.0));
      q := q[(k, k) := q[(k, k)] + -100.0];
      t := t + 1;
    }
    assert block[..|block|] == block;
  }

  lemma PinStep(qubo: Weights, w: Weights, field: Grid, draws: Draws, prob: real, blocks: BlockMap, done: seq<Cell>, c: Cell)
    requires w == Apply(qubo, PinUpdates(field, draws, prob, blocks, done))
    ensures Apply(w, PinCell(field, draws, prob, blocks)(c)) == Apply(qubo, PinUpdates(field, draws, prob, blocks, done + [c]))
  {
    GatherAppend(PinCell(field, draws, prob, blocks), done, c);
    ApplyConcat(qubo, PinUpdates(field, draws, prob, blocks, done), PinCell(field, draws, prob, blocks)(c));
  }

  /** A pinned block lowers the bias of each of its variables by 100 per
      occurrence, and touches no coupler. */
  lemma {:induction false} PinBlockTotal(b: seq<int>, k: Key)
    ensures Total(PinBlock(b), k) == if k.0 == k.1 then -100.0 * (Count(b, k.0) as real) else 0.0
  {
    if b != [] {
      PinBlockTotal(b[..|b| - 1], k);
      TotalConcat(PinBlock(b[..|b| - 1]), [Update((b[|b| - 1], b[|b| - 1]), -100.0)], k);
    }
  }

  /** The pass touches no coupler, and no variable outside the blocks of the
      cells. */
  lemma PinningOutside(field: Grid, draws: Draws, prob: real, blocks: BlockMap, cells: seq<Cell>, k: Key)
    requires k.0 != k.1 || forall d | d in cells :: k.0 !in BlockAt(blocks, d)
    ensures Total(PinUpdates(field, draws, prob, blocks, cells), k) == 0.0
  {
    forall d | d in cells ensures Total(PinCell(field, draws, prob, blocks)(d), k) == 0.0 {
      PinBlockTotal(BlockAt(blocks, d), k);
      if k.0 == k.1 {
        CountAbsent(BlockAt(blocks, d), k.0);
      }
    }
    GatherAbsent(PinCell(field, draws, prob, blocks), cells, k);
  }

  /** With disjoint blocks without repetitions, a variable of the block of
      cell `c` has its bias lowered by exactly 100 when `c` is pinned (alive
      and drawing below the probability), and is left alone otherwise; in
      particular a dead cell's variables are never pinned. */
  lemma PinningAt(field: Grid, draws: Draws, prob: real, blocks: BlockMap, rows: int, cols: int,
                  cells: seq<Cell>, c: Cell, x: int)
    requires Disjoint(blocks, rows, cols) && BlocksDistinct(blocks, rows, cols) && Distinct(cells)
    requires forall d | d in cells :: InRange(d, rows, cols)
    requires c in cells && x in BlockAt(blocks, c)
    ensures Total(PinUpdates(field, draws, prob, blocks, cells), (x, x)) ==
      if Alive(field, c.0, c.1) && DrawAt(draws, c.0, c.1) < prob then -100.0 else 0.0
  {
    forall d | d in cells && d != c ensures Total(PinCell(field, draws, prob, blocks)(d), (x, x)) == 0.0 {
      DisjointAt(blocks, rows, cols, c, d, x);
      CountAbsent(BlockAt(blocks, d), x);
      PinBlockTotal(BlockAt(blocks, d), (x, x));
    }
    GatherAt(PinCell(field, draws, prob, blocks), cells, c, (x, x));
    PinBlockTotal(BlockAt(blocks, c), (x, x));
    CountDistinct(BlockAt(blocks, c), x);
  }

  /** With the default fixing probability 1 and draws in `[0, 1)`, the pass
      pins exactly the alive cells. */
  lemma CertainPinning(field: Grid, draws: Draws, blocks: BlockMap, rows: int, cols: int, cells: seq<Cell>, c: Cell, x: int)
    requires Disjoint(blocks, rows, cols) && BlocksDistinct(blocks, rows, cols) && Distinct(cells)
    requires forall d | d in cells :: InRange(d, rows, cols)
    requires c in cells && x in BlockAt(blocks, c)
    requires forall i, j | 0 <= i < |draws| && 0 <= j < |draws[i]| :: 0.0 <= draws[i][j] < 1.0
    requires SameShape(draws, field) && 0 <= c.0 < |field| && 0 <= c.1 < |field[c.0]|
    ensures Total(PinUpdates(field, draws, 1.0, blocks, cells), (x, x)) == if field[c.0][c.1] == 1 then -100.0 else 0.0
  {
    PinningAt(field, draws, 1.0, blocks, rows, cols, cells, c, x);
  }
}
