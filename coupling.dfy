/** Third pass of `makeStepOne` (qgol.py:91-124): coupling between neighbours.
    For every alive cell, a first loop counts its alive Moore neighbours; a
    second loop visits the neighbours in the same order and, for every pair
    `(q_1, q_2)` of the cell's block and the neighbour's block, records both
    variables as used and, when `(q_1, q_2)` is a hardware coupler (in that
    direction), adds `qubo_value` to it. With overpopulation modelling the sign
    is chosen by a counter that starts at the number of alive neighbours and
    grows by one per coupler written: once it exceeds the limit, `-qubo_value`
    is added instead. */
module Coupling {
  import opened Traversal
  import opened Qubo
  import opened Blocks
  import opened Field

  /** The hardware couplers, `qubo_value`, `model_overpopulation` and
      `overpopulation_amnt`. */
  datatype Settings = Settings(edges: set<Cell>, value: real, overpopulation: bool, limit: int)

  /** The cell at offset `o` from `c`. */
  function Shift(c: Cell, o: Cell): Cell
  {
    (c.0 + o.0, c.1 + o.1)
  }

  /** Offset `o` leads from `c` to another cell of the `rows` x `cols` field. */
  predicate IsNeighbour(rows: int, cols: int, c: Cell, o: Cell)
  {
    o != (0, 0) && InRange(Shift(c, o), rows, cols)
  }

  /** The first loop: the alive neighbours of `c` at the offsets `offs`. */
  function AliveNeighbours(field: Grid, c: Cell, offs: seq<Cell>): nat
  {
    if offs == [] then 0
    else
      var o := offs[|offs| - 1];
      AliveNeighbours(field, c, offs[..|offs| - 1]) +
        if IsNeighbour(|field|, Cols(field), c, o) && Alive(field, Shift(c, o).0, Shift(c, o).1) then 1 else 0
  }

  /** The pairs `(q_1, q_2)` the second loop visits at the offsets `offs`. */
  function NeighbourPairs(rows: int, cols: int, blocks: BlockMap, c: Cell, offs: seq<Cell>): seq<Cell>
  {
    if offs == [] then []
    else
      var o := offs[|offs| - 1];
      NeighbourPairs(rows, cols, blocks, c, offs[..|offs| - 1]) +
        if IsNeighbour(rows, cols, c, o) then Product(BlockAt(blocks, c), BlockAt(blocks, Shift(c, o))) else []
  }

  /** The additions made so far and the current value of the counter. */
  datatype Tally = Tally(updates: seq<Update>, counter: int)

  /** What pair `p` adds when the counter stands at `counter`. */
  function PairCoupling(s: Settings, counter: int, p: Cell): seq<Update>
  {
    if p !in s.edges then []
    else if s.overpopulation && counter > s.limit then [Update(p, -s.value)]
    else [Update(p, s.value)]
  }

  /** The counter after pair `p`. */
  function NextCounter(s: Settings, counter: int, p: Cell): int
  {
    if p in s.edges && s.overpopulation then counter + 1 else counter
  }

  /** The pairs `ps` processed in order from counter value `counter`. */
  function Couple(s: Settings, counter: int, ps: seq<Cell>): Tally
  {
    if ps == [] then Tally([], counter)
    else
      var t := Couple(s, counter, ps[..|ps| - 1]);
      Tally(t.updates + PairCoupling(s, t.counter, ps[|ps| - 1]), NextCounter(s, t.counter, ps[|ps| - 1]))
  }

  /** The variables named by the pairs `ps` (`used_qubits.add(q_1)`, `add(q_2)`). */
  function Members(ps: seq<Cell>): set<int>
  {
    if ps == [] then {} else Members(ps[..|ps| - 1]) + {ps[|ps| - 1].0, ps[|ps| - 1].1}
  }

  /** The work of both loops for cell `c`. */
  function CellTally(field: Grid, blocks: BlockMap, s: Settings, c: Cell): Tally
  {
    Couple(s, AliveNeighbours(field, c, Moore()), NeighbourPairs(|field|, Cols(field), blocks, c, Moore()))
  }

  /** The additions for a cell: none unless it is alive. */
  function CellCoupling(field: Grid, blocks: BlockMap, s: Settings): Cell -> seq<Update>
  {
    (c: Cell) => if Alive(field, c.0, c.1) then CellTally(field, blocks, s, c).updates else []
  }

  /** The variables a cell marks as used. */
  function CellUsed(field: Grid, blocks: BlockMap): Cell -> set<int>
  {
    (c: Cell) => if Alive(field, c.0, c.1) then Members(NeighbourPairs(|field|, Cols(field), blocks, c, Moore())) else {}
  }

  /** The additions of the pass for the cells `cells`, in order. */
  function CouplingUpdates(field: Grid, blocks: BlockMap, s: Settings, cells: seq<Cell>): seq<Update>
  {
    Gather(CellCoupling(field, blocks, s), cells)
  }

  /** The union of `g(c)` over the cells `cells`. */
  function Collect(g: Cell -> set<int>, cells: seq<Cell>): set<int>
  {
    if cells == [] then {} else Collect(g, cells[..|cells| - 1]) + g(cells[|cells| - 1])
  }

  /** `used_qubits` after the cells `cells`. */
  function UsedVars(field: Grid, blocks: BlockMap, cells: seq<Cell>): set<int>
  {
    Collect(CellUsed(field, blocks), cells)
  }

  /** The subsequence of the pairs `ps` that are couplers. */
  function InEdges(edges: set<Cell>, ps: seq<Cell>): seq<Cell>
  {
    if ps == [] then []
    else InEdges(edges, ps[..|ps| - 1]) + if ps[|ps| - 1] in edges then [ps[|ps| - 1]] else []
  }

  /** Runs the pass over the whole field; returns the QUBO and `used_qubits`. */
  method CouplingPass(qubo: Weights, n: nat, field: Grid, blocks: BlockMap, s: Settings)
    returns (q: Weights, used: set<int>)
    requires IsRect(field) && Holds(qubo, n)
    requires Covers(blocks, |field|, Cols(field)) && IndicesBelow(blocks, |field|, Cols(field), n)
    ensures q == Apply(qubo, CouplingUpdates(field, blocks, s, Rect(0, |field|, 0, Cols(field))))
    ensures used == UsedVars(field, blocks, Rect(0, |field|, 0, Cols(field)))
    ensures q.Keys == qubo.Keys
  {
    var rows, cols := |field|, Cols(field);
    q, used := qubo, {};
    var i := 0;
    while i < rows
      invariant 0 <= i <= rows
      invariant q.Keys == qubo.Keys
      invariant q == Apply(qubo, CouplingUpdates(field, blocks, s, Rect(0, i, 0, cols)))
      invariant used == UsedVars(field, blocks, Rect(0, i, 0, cols))
    {
      q, used := CouplingRow(q, used, n, field, blocks, s, i);
      GatherConcat(CellCoupling(field, blocks, s), Rect(0, i, 0, cols), Span(i, 0, cols));
      CollectConcat(CellUsed(field, blocks), Rect(0, i, 0, cols), Span(i, 0, cols));
      ApplyConcat(qubo, CouplingUpdates(field, blocks, s, Rect(0, i, 0, cols)), CouplingUpdates(field, blocks, s, Span(i, 0, cols)));
      i := i + 1;
    }
  }

  /** The loop over the cells of row `i`. */
  method CouplingRow(w: Weights, used0: set<int>, n: nat, field: Grid, blocks: BlockMap, s: Settings, i: int)
    returns (q: Weights, used: set<int>)
    requires IsRect(field) && 0 <= i < |field| && Holds(w, n)
    requires Covers(blocks, |field|, Cols(field)) && IndicesBelow(blocks, |field|, Cols(field), n)
    ensures q == Apply(w, CouplingUpdates(field, blocks, s, Span(i, 0, Cols(field))))
    ensures used == used0 + UsedVars(field, blocks, Span(i, 0, Cols(field)))
    ensures q.Keys == w.Keys
  {
    var cols := Cols(field);
    q, used := w, used0;
    var j := 0;
    while j < cols
      invariant 0 <= j <= cols
      invariant q.Keys == w.Keys
      invariant q == Apply(w, CouplingUpdates(field, blocks, s, Span(i, 0, j)))
      invariant used == used0 + UsedVars(field, blocks, Span(i, 0, j))
    {
      q, used := VisitCell(w, q, used0, used, n, field, blocks, s, i, j);
      j := j + 1;
    }
  }

  /** The body of the loop over row `i` for cell `(i, j)`: only an alive cell
      couples. */
  method VisitCell(w: Weights, v: Weights, used0: set<int>, u: set<int>, n: nat, field: Grid, blocks: BlockMap,
                   s: Settings, i: int, j: int)
    returns (q: Weights, used: set<int>)
    requires IsRect(field) && 0 <= i < |field| && 0 <= j < Cols(field) && Holds(v, n)
    requires Covers(blocks, |field|, Cols(field)) && IndicesBelow(blocks, |field|, Cols(field), n)
    requires v == Apply(w, CouplingUpdates(field, blocks, s, Span(i, 0, j)))
    requires u == used0 + UsedVars(field, blocks, Span(i, 0, j))
    ensures q == Apply(w, CouplingUpdates(field, blocks, s, Span(i, 0, j + 1)))
    ensures used == used0 + UsedVars(field, blocks, Span(i, 0, j + 1))
    ensures q.Keys == v.Keys
  {
    q, used := v, u;
    if field[i][j] == 1 {
      q, used := CoupleCell(v, u, n, field, blocks, s, i, j);
    }
    CellStep(w, v, q, used0, u, used, field, blocks, s, Span(i, 0, j), (i, j));
    SpanAppend(i, 0, j);
  }

  lemma CellStep(w: Weights, v: Weights, q: Weights, used0: set<int>, u: set<int>, used: set<int>,
                 field: Grid, blocks: BlockMap, s: Settings, done: seq<Cell>, c: Cell)
    requires v == Apply(w, CouplingUpdates(field, blocks, s, done)) && u == used0 + UsedVars(field, blocks, done)
    requires Alive(field, c.0, c.1) ==> q == Apply(v, CellTally(field, blocks, s, c).updates)
    requires Alive(field, c.0, c.1) ==> used == u + Members(NeighbourPairs(|field|, Cols(field), blocks, c, Moore()))
    requires !Alive(field, c.0, c.1) ==> q == v && used == u
    ensures q == Apply(w, CouplingUpdates(field, blocks, s, done + [c]))
    ensures used == used0 + UsedVars(field, blocks, done + [c])
  {
    var f, g := CellCoupling(field, blocks, s), CellUsed(field, blocks);
    GatherAppend(f, done, c);
    assert CouplingUpdates(field, blocks, s, done + [c]) == CouplingUpdates(field, blocks, s, done) + f(c);
    ApplyConcat(w, CouplingUpdates(field, blocks, s, done), f(c));
    assert (done + [c])[..|done|] == done;
    assert UsedVars(field, blocks, done + [c]) == UsedVars(field, blocks, done) + g(c);
  }

  /** Both offset loops for the alive cell `(i, j)`. */
  method CoupleCell(w: Weights, used0: set<int>, n: nat, field: Grid, blocks: BlockMap, s: Settings, i: int, j: int)
    returns (q: Weights, used: set<int>)
    requires IsRect(field) && Holds(w, n) && InRange((i, j), |field|, Cols(field))
    requires Covers(blocks, |field|, Cols(field)) && IndicesBelow(blocks, |field|, Cols(field), n)
    ensures q == Apply(w, CellTally(field, blocks, s, (i, j)).updates)
    ensures used == used0 + Members(NeighbourPairs(|field|, Cols(field), blocks, (i, j), Moore()))
    ensures q.Keys == w.Keys
  {
    var rows, cols := |field|, Cols(field);
    var counter := CountAliveNeighbours(field, i, j);
    ghost var c0 := counter;
    q, used := w, used0;
    var k1 := -1;
    while k1 < 2
      invariant -1 <= k1 <= 2
      invariant q.Keys == w.Keys
      invariant var t := Couple(s, c0, NeighbourPairs(rows, cols, blocks, (i, j), Rect(-1, k1, -1, 2)));
        q == Apply(w, t.updates) && counter == t.counter
      invariant used == used0 + Members(NeighbourPairs(rows, cols, blocks, (i, j), Rect(-1, k1, -1, 2)))
    {
      ghost var v, u := q, used;
      q, counter, used := CoupleOffsets(q, counter, used, n, field, blocks, s, i, j, k1);
      OffsetsStep(w, v, q, counter, used0, u, used, rows, cols, blocks, s, c0, (i, j), Rect(-1, k1, -1, 2), Span(k1, -1, 2));
      k1 := k1 + 1;
    }
    MooreOrder();
  }

  /** The offsets `(k1, -1)`, `(k1, 0)`, `(k1, 1)` of the second offset loop. */
  method CoupleOffsets(w: Weights, counter0: int, used0: set<int>, n: nat, field: Grid, blocks: BlockMap, s: Settings,
                       i: int, j: int, k1: int)
    returns (q: Weights, counter: int, used: set<int>)
    requires IsRect(field) && Holds(w, n) && InRange((i, j), |field|, Cols(field))
    requires Covers(blocks, |field|, Cols(field)) && IndicesBelow(blocks, |field|, Cols(field), n)
    ensures var t := Couple(s, counter0, NeighbourPairs(|field|, Cols(field), blocks, (i, j), Span(k1, -1, 2)));
      q == Apply(w, t.updates) && counter == t.counter
    ensures used == used0 + Members(NeighbourPairs(|field|, Cols(field), blocks, (i, j), Span(k1, -1, 2)))
    ensures q.Keys == w.Keys
  {
    var rows, cols := |field|, Cols(field);
    q, counter, used := w, counter0, used0;
    var k2 := -1;
    while k2 < 2
      invariant -1 <= k2 <= 2
      invariant q.Keys == w.Keys
      invariant var t := Couple(s, counter0, NeighbourPairs(rows, cols, blocks, (i, j), Span(k1, -1, k2)));
        q == Apply(w, t.updates) && counter == t.counter
      invariant used == used0 + Members(NeighbourPairs(rows, cols, blocks, (i, j), Span(k1, -1, k2)))
    {
      ghost var v, u := q, used;
      q, counter, used := CoupleOffset(q, counter, used, n, field, blocks, s, i, j, k1, k2);
      OffsetsStep(w, v, q, counter, used0, u, used, rows, cols, blocks, s, counter0, (i, j), Span(k1, -1, k2), [(k1, k2)]);
      SpanAppend(k1, -1, k2);
      k2 := k2 + 1;
    }
  }

  /** The body of the second offset loop for offset `(k1, k2)` (qgol.py:105-124). */
  method CoupleOffset(w: Weights, counter0: int, used0: set<int>, n: nat, field: Grid, blocks: BlockMap, s: Settings,
                      i: int, j: int, k1: int, k2: int)
    returns (q: Weights, counter: int, used: set<int>)
    requires IsRect(field) && Holds(w, n) && InRange((i, j), |field|, Cols(field))
    requires Covers(blocks, |field|, Cols(field)) && IndicesBelow(blocks, |field|, Cols(field), n)
    ensures var t := Couple(s, counter0, NeighbourPairs(|field|, Cols(field), blocks, (i, j), [(k1, k2)]));
      q == Apply(w, t.updates) && counter == t.counter
    ensures used == used0 + Members(NeighbourPairs(|field|, Cols(field), blocks, (i, j), [(k1, k2)]))
    ensures q.Keys == w.Keys
  {
    var rows, cols := |field|, Cols(field);
    var pos1, pos2 := i + k1, j + k2;
    q, counter, used := w, counter0, used0;
    SingleOffset(rows, cols, blocks, (i, j), (k1, k2));
    if (pos1, pos2) != (i, j) {
      if 0 <= pos1 < rows && 0 <= pos2 < cols {
        BlockBelow(blocks, rows, cols, n, (i, j));
        BlockBelow(blocks, rows, cols, n, (pos1, pos2));
        var b1, b2 := blocks[(i, j)], blocks[(pos1, pos2)];
        assert IsNeighbour(rows, cols, (i, j), (k1, k2));
        assert NeighbourPairs(rows, cols, blocks, (i, j), [(k1, k2)]) == Product(b1, b2);
        q, counter, used := CoupleBlocks(q, counter, used, n, b1, b2, s);
        return;
      }
    }
    assert Couple(s, counter0, []) == Tally([], counter0);
  }

  /** The pairs visited at a single offset. */
  lemma SingleOffset(rows: int, cols: int, blocks: BlockMap, c: Cell, o: Cell)
    ensures NeighbourPairs(rows, cols, blocks, c, [o]) ==
      if IsNeighbour(rows, cols, c, o) then Product(BlockAt(blocks, c), BlockAt(blocks, Shift(c, o))) else []
  {
    assert [o][..0] == [];
  }

  lemma OffsetsStep(w: Weights, v: Weights, q: Weights, counter: int, used0: set<int>, u: set<int>, used: set<int>,
                    rows: int, cols: int, blocks: BlockMap, s: Settings, c0: int, c: Cell, offs: seq<Cell>, more: seq<Cell>)
    requires var t := Couple(s, c0, NeighbourPairs(rows, cols, blocks, c, offs));
      v == Apply(w, t.updates) && u == used0 + Members(NeighbourPairs(rows, cols, blocks, c, offs)) &&
      var t' := Couple(s, t.counter, NeighbourPairs(rows, cols, blocks, c, more));
      q == Apply(v, t'.updates) && counter == t'.counter && used == u + Members(NeighbourPairs(rows, cols, blocks, c, more))
    ensures var t := Couple(s, c0, NeighbourPairs(rows, cols, blocks, c, offs + more));
      q == Apply(w, t.updates) && counter == t.counter && used == used0 + Members(NeighbourPairs(rows, cols, blocks, c, offs + more))
  {
    NeighbourPairsConcat(rows, cols, blocks, c, offs, more);
    ChainStep(w, v, q, counter, used0, u, used, s, c0, NeighbourPairs(rows, cols, blocks, c, offs),
              NeighbourPairs(rows, cols, blocks, c, more));
  }

  /** Processing `ps` and then `more` is processing `ps + more`. */
  lemma ChainStep(w: Weights, v: Weights, q: Weights, counter: int, used0: set<int>, u: set<int>, used: set<int>,
                  s: Settings, c0: int, ps: seq<Cell>, more: seq<Cell>)
    requires var t := Couple(s, c0, ps);
      v == Apply(w, t.updates) && u == used0 + Members(ps) &&
      var t' := Couple(s, t.counter, more);
      q == Apply(v, t'.updates) && counter == t'.counter && used == u + Members(more)
    ensures var t := Couple(s, c0, ps + more);
      q == Apply(w, t.updates) && counter == t.counter && used == used0 + Members(ps + more)
  {
    var t := Couple(s, c0, ps);
    CoupleConcat(s, c0, ps, more);
    ApplyConcat(w, t.updates, Couple(s, t.counter, more).updates);
    MembersConcat(ps, more);
  }

  /** The first offset loop (qgol.py:95-103). */
  method CountAliveNeighbours(field: Grid, i: int, j: int) returns (count: nat)
    requires IsRect(field)
    ensures count == AliveNeighbours(field, (i, j), Moore())
  {
    count := 0;
    var k1 := -1;
    while k1 < 2
      invariant -1 <= k1 <= 2
      invariant count == AliveNeighbours(field, (i, j), Rect(-1, k1, -1, 2))
    {
      count := CountOffsets(count, field, i, j, k1);
      AliveNeighboursConcat(field, (i, j), Rect(-1, k1, -1, 2), Span(k1, -1, 2));
      k1 := k1 + 1;
    }
    MooreOrder();
  }

  /** The offsets `(k1, -1)`, `(k1, 0)`, `(k1, 1)` of the first offset loop. */
  method CountOffsets(count0: nat, field: Grid, i: int, j: int, k1: int) returns (count: nat)
    requires IsRect(field)
    ensures count == count0 + AliveNeighbours(field, (i, j), Span(k1, -1, 2))
  {
    var rows, cols := |field|, Cols(field);
    count := count0;
    var k2 := -1;
    while k2 < 2
      invariant -1 <= k2 <= 2
      invariant count == count0 + AliveNeighbours(field, (i, j), Span(k1, -1, k2))
    {
      var pos1, pos2 := i + k1, j + k2;
      ghost var before := count;
      if (pos1, pos2) != (i, j) {
        if 0 <= pos1 < rows && 0 <= pos2 < cols {
          if field[pos1][pos2] == 1 {
            count := count + 1;
          }
        }
      }
      assert count == before + if IsNeighbour(rows, cols, (i, j), (k1, k2)) && Alive(field, pos1, pos2) then 1 else 0;
      CountStep(field, (i, j), Span(k1, -1, k2), (k1, k2));
      SpanAppend(k1, -1, k2);
      k2 := k2 + 1;
    }
  }

  lemma CountStep(field: Grid, c: Cell, offs: seq<Cell>, o: Cell)
    ensures AliveNeighbours(field, c, offs + [o]) == AliveNeighbours(field, c, offs) +
      if IsNeighbour(|field|, Cols(field), c, o) && Alive(field, Shift(c, o).0, Shift(c, o).1) then 1 else 0
  {
    assert (offs + [o])[..|offs|] == offs;
  }

  /** The loops over the pairs of two blocks (qgol.py:111-124). */
  method CoupleBlocks(w: Weights, counter0: int, used0: set<int>, n: nat, b1: seq<int>, b2: seq<int>, s: Settings)
    returns (q: Weights, counter: int, used: set<int>)
    requires Holds(w, n) && (forall x | x in b1 :: 0 <= x < n) && (forall x | x in b2 :: 0 <= x < n)
    ensures q == Apply(w, Couple(s, counter0, Product(b1, b2)).updates)
    ensures counter == Couple(s, counter0, Product(b1, b2)).counter
    ensures used == used0 + Members(Product(b1, b2))
    ensures q.Keys == w.Keys
  {
    q, counter, used := w, counter0, used0;
    var t := 0;
    while t < |b1|
      invariant 0 <= t <= |b1|
      invariant q.Keys == w.Keys
      invariant var r := Couple(s, counter0, Product(b1[..t], b2));
        q == Apply(w, r.updates) && counter == r.counter
      invariant used == used0 + Members(Product(b1[..t], b2))
    {
      ghost var v, u := q, used;
      assert b1[t] in b1;
      q, counter, used := CoupleRow(q, counter, used, n, b1[t], b2, s);
      ProductAppend(b1, b2, t);
      ChainStep(w, v, q, counter, used0, u, used, s, counter0, Product(b1[..t], b2), Pairs(b1[t], b2));
      t := t + 1;
    }
    assert b1[..|b1|] == b1;
  }

  /** The innermost loop: `q_1` fixed, `q_2` running over the neighbour's block. */
  method CoupleRow(w: Weights, counter0: int, used0: set<int>, n: nat, q1: int, b2: seq<int>, s: Settings)
    returns (q: Weights, counter: int, used: set<int>)
    requires Holds(w, n) && 0 <= q1 < n && forall x | x in b2 :: 0 <= x < n
    ensures q == Apply(w, Couple(s, counter0, Pairs(q1, b2)).updates)
    ensures counter == Couple(s, counter0, Pairs(q1, b2)).counter
    ensures used == used0 + Members(Pairs(q1, b2))
    ensures q.Keys == w.Keys
  {
    q, counter, used := w, counter0, used0;
    var t := 0;
    while t < |b2|
      invariant 0 <= t <= |b2|
      invariant q.Keys == w.Keys
      invariant var r := Couple(s, counter0, Pairs(q1, b2[..t]));
        q == Apply(w, r.updates) && counter == r.counter
      invariant used == used0 + Members(Pairs(q1, b2[..t]))
    {
      var q2 := b2[t];
      assert (q1, q2) in q by {
        assert q2 in b2;
      }
      ghost var v, u, cv := q, used, counter;
      q, counter, used := CouplePair(q, counter, used, q1, q2, s);
      CoupleSingle(s, cv, (q1, q2));
      PairsAppend(q1, b2, t);
      ChainStep(w, v, q, counter, used0, u, used, s, counter0, Pairs(q1, b2[..t]), [(q1, q2)]);
      t := t + 1;
    }
    assert b2[..|b2|] == b2;
  }

  /** A single pair processed on its own. */
  lemma CoupleSingle(s: Settings, counter: int, p: Cell)
    ensures Couple(s, counter, [p]) == Tally(PairCoupling(s, counter, p), NextCounter(s, counter, p))
    ensures Members([p]) == {p.0, p.1}
  {
    assert [p][..0] == [];
  }

  /** The body of the innermost loop (qgol.py:113-124). */
  method CouplePair(w: Weights, counter0: int, used0: set<int>, q1: int, q2: int, s: Settings)
    returns (q: Weights, counter: int, used: set<int>)
    requires (q1, q2) in w
    ensures q == Apply(w, PairCoupling(s, counter0, (q1, q2)))
    ensures counter == NextCounter(s, counter0, (q1, q2))
    ensures used == used0 + {q1, q2}
    ensures q.Keys == w.Keys
  {
    q, counter := w, counter0;
    used := used0 + {q1};
    used := used + {q2};
    if (q1, q2) in s.edges {
      if !s.overpopulation {
        q := q[(q1, q2) := q[(q1, q2)] + s.value];
      } else if counter > s.limit {
        q := q[(q1, q2) := q[(q1, q2)] + -s.value];
        counter := counter + 1;
      } else {
        q := q[(q1, q2) := q[(q1, q2)] + s.value];
        counter := counter + 1;
      }
    }
    ghost var us := PairCoupling(s, counter0, (q1, q2));
    if us != [] {
      assert us[..0] == [];
    }
  }

  lemma {:induction false} CoupleConcat(s: Settings, counter: int, ps: seq<Cell>, qs: seq<Cell>)
    ensures var t := Couple(s, counter, ps);
      var t' := Couple(s, t.counter, qs);
      Couple(s, counter, ps + qs) == Tally(t.updates + t'.updates, t'.counter)
  {
    if qs == [] {
      assert ps + qs == ps;
    } else {
      var init, p := qs[..|qs| - 1], qs[|qs| - 1];
      var t := Couple(s, counter, ps);
      var ti := Couple(s, t.counter, init);
      assert (ps + qs)[..|ps + qs| - 1] == ps + init;
      assert (ps + qs)[|ps + qs| - 1] == p;
      CoupleConcat(s, counter, ps, init);
      var pc := PairCoupling(s, ti.counter, p);
      assert Couple(s, counter, ps + qs) == Tally((t.updates + ti.updates) + pc, NextCounter(s, ti.counter, p));
      assert Couple(s, t.counter, qs) == Tally(ti.updates + pc, NextCounter(s, ti.counter, p));
      assert (t.updates + ti.updates) + pc == t.updates + (ti.updates + pc);
    }
  }

  lemma {:induction false} CollectConcat(g: Cell -> set<int>, cells: seq<Cell>, more: seq<Cell>)
    ensures Collect(g, cells + more) == Collect(g, cells) + Collect(g, more)
  {
    if more == [] {
      assert cells + more == cells;
    } else {
      assert (cells + more)[..|cells + more| - 1] == cells + more[..|more| - 1];
      CollectConcat(g, cells, more[..|more| - 1]);
    }
  }

  lemma {:induction false} NeighbourPairsConcat(rows: int, cols: int, blocks: BlockMap, c: Cell, offs: seq<Cell>, more: seq<Cell>)
    ensures NeighbourPairs(rows, cols, blocks, c, offs + more) ==
      NeighbourPairs(rows, cols, blocks, c, offs) + NeighbourPairs(rows, cols, blocks, c, more)
  {
    if more == [] {
      assert offs + more == offs;
    } else {
      assert (offs + more)[..|offs + more| - 1] == offs + more[..|more| - 1];
      NeighbourPairsConcat(rows, cols, blocks, c, offs, more[..|more| - 1]);
    }
  }

  lemma {:induction false} AliveNeighboursConcat(field: Grid, c: Cell, offs: seq<Cell>, more: seq<Cell>)
    ensures AliveNeighbours(field, c, offs + more) == AliveNeighbours(field, c, offs) + AliveNeighbours(field, c, more)
  {
    if more == [] {
      assert offs + more == offs;
    } else {
      assert (offs + more)[..|offs + more| - 1] == offs + more[..|more| - 1];
      AliveNeighboursConcat(field, c, offs, more[..|more| - 1]);
    }
  }

  lemma {:induction false} MembersConcat(ps: seq<Cell>, qs: seq<Cell>)
    ensures Members(ps + qs) == Members(ps) + Members(qs)
  {
    if qs == [] {
      assert ps + qs == ps;
    } else {
      assert (ps + qs)[..|ps + qs| - 1] == ps + qs[..|qs| - 1];
      MembersConcat(ps, qs[..|qs| - 1]);
    }
  }

  /** Closed form of the counter rule: the pairs that are couplers are written
      in order, the `m`-th of them with `-qubo_value` exactly when
      overpopulation is modelled and the counter, `c0 + m` by then, exceeds the
      limit; non-couplers write nothing and do not move the counter. */
  lemma {:induction false} CoupleThreshold(s: Settings, c0: int, ps: seq<Cell>)
    ensures var t, es := Couple(s, c0, ps), InEdges(s.edges, ps);
      |t.updates| == |es| &&
      t.counter == c0 + (if s.overpopulation then |es| else 0) &&
      forall m | 0 <= m < |es| ::
        t.updates[m] == Update(es[m], if s.overpopulation && c0 + m > s.limit then -s.value else s.value)
  {
    if ps != [] {
      var init, p := ps[..|ps| - 1], ps[|ps| - 1];
      CoupleThreshold(s, c0, init);
    }
  }

  /** Without overpopulation modelling every coupler between the blocks gets
      `+qubo_value`; with it, a cell whose alive neighbours already exceed the
      limit gets `-qubo_value` on every coupler. */
  lemma CoupleSigns(s: Settings, c0: int, ps: seq<Cell>)
    ensures !s.overpopulation ==> forall u | u in Couple(s, c0, ps).updates :: u.delta == s.value
    ensures s.overpopulation && c0 > s.limit ==> forall u | u in Couple(s, c0, ps).updates :: u.delta == -s.value
    ensures s.overpopulation && c0 + |InEdges(s.edges, ps)| <= s.limit + 1 ==>
      forall u | u in Couple(s, c0, ps).updates :: u.delta == s.value
  {
    CoupleThreshold(s, c0, ps);
    var t, es := Couple(s, c0, ps), InEdges(s.edges, ps);
    forall u | u in t.updates
      ensures !s.overpopulation ==> u.delta == s.value
      ensures s.overpopulation && c0 > s.limit ==> u.delta == -s.value
      ensures s.overpopulation && c0 + |es| <= s.limit + 1 ==> u.delta == s.value
    {
      var m :| 0 <= m < |t.updates| && t.updates[m] == u;
    }
  }

  /** The couplers among `ps` are exactly the pairs of `ps` in the hardware
      graph. */
  lemma {:induction false} InEdgesMembers(edges: set<Cell>, ps: seq<Cell>, p: Cell)
    ensures p in InEdges(edges, ps) <==> p in ps && p in edges
  {
    if ps != [] {
      var init := ps[..|ps| - 1];
      InEdgesMembers(edges, init, p);
      assert ps == init + [ps[|ps| - 1]];
    }
  }

  /** The variables a block pair marks as used: both blocks entirely, unless
      one of them is empty, in which case the inner loop never runs. */
  lemma {:induction false} MembersProduct(xs: seq<int>, ys: seq<int>)
    ensures forall v :: v in Members(Product(xs, ys)) <==> xs != [] && ys != [] && (v in xs || v in ys)
  {
    if xs != [] {
      var init, x := xs[..|xs| - 1], xs[|xs| - 1];
      MembersProduct(init, ys);
      MembersConcat(Product(init, ys), Pairs(x, ys));
      MembersPairs(x, ys);
      assert xs == init + [x];
      forall v ensures v in xs <==> v in init || v == x {
      }
    }
  }

  lemma {:induction false} MembersPairs(x: int, ys: seq<int>)
    ensures forall v :: v in Members(Pairs(x, ys)) <==> ys != [] && (v == x || v in ys)
  {
    if ys != [] {
      var init := ys[..|ys| - 1];
      MembersPairs(x, init);
      assert ys == init + [ys[|ys| - 1]];
    }
  }

  /** A pair visited for cell `c` joins the block of `c` to the block of one of
      its neighbours. */
  lemma {:induction false} NeighbourPairsMembers(rows: int, cols: int, blocks: BlockMap, c: Cell, offs: seq<Cell>, p: Cell)
    ensures p in NeighbourPairs(rows, cols, blocks, c, offs) <==>
      exists o | o in offs :: IsNeighbour(rows, cols, c, o) && p.0 in BlockAt(blocks, c) && p.1 in BlockAt(blocks, Shift(c, o))
  {
    if offs != [] {
      var init, o := offs[..|offs| - 1], offs[|offs| - 1];
      NeighbourPairsMembers(rows, cols, blocks, c, init, p);
      ProductMembers(BlockAt(blocks, c), BlockAt(blocks, Shift(c, o)), p);
      assert offs == init + [o];
    }
  }

  /** Every update of a tally writes one of its pairs that is a coupler, with
      `+qubo_value` or `-qubo_value`. */
  lemma {:induction false} CoupleMembers(s: Settings, c0: int, ps: seq<Cell>, u: Update)
    requires u in Couple(s, c0, ps).updates
    ensures u.key in ps && u.key in s.edges
    ensures u.delta == s.value || u.delta == -s.value
  {
    var t, es := Couple(s, c0, ps), InEdges(s.edges, ps);
    CoupleThreshold(s, c0, ps);
    var m :| 0 <= m < |t.updates| && t.updates[m] == u;
    assert es[m] in es;
    InEdgesMembers(s.edges, ps, es[m]);
  }

  /** The pass writes only hardware couplers, each between a variable of an
      alive cell's block and a variable of the block of one of that cell's
      neighbours, and only `+qubo_value` or `-qubo_value`. */
  lemma CouplingTouches(field: Grid, blocks: BlockMap, s: Settings, cells: seq<Cell>, u: Update)
    requires u in CouplingUpdates(field, blocks, s, cells)
    ensures u.key in s.edges && (u.delta == s.value || u.delta == -s.value)
    ensures exists d, o | d in cells && o in Moore() ::
      Alive(field, d.0, d.1) && IsNeighbour(|field|, Cols(field), d, o) &&
      u.key.0 in BlockAt(blocks, d) && u.key.1 in BlockAt(blocks, Shift(d, o))
  {
    var f := CellCoupling(field, blocks, s);
    GatherMember(f, cells, u);
    var d :| d in cells && u in f(d);
    var ps := NeighbourPairs(|field|, Cols(field), blocks, d, Moore());
    CoupleMembers(s, AliveNeighbours(field, d, Moore()), ps, u);
    NeighbourPairsMembers(|field|, Cols(field), blocks, d, Moore(), u.key);
  }

  /** The couplers among pairs without repetitions repeat no coupler. */
  lemma {:induction false} InEdgesDistinct(edges: set<Cell>, ps: seq<Cell>)
    requires Distinct(ps)
    ensures Distinct(InEdges(edges, ps))
  {
    if ps != [] {
      var init, p := ps[..|ps| - 1], ps[|ps| - 1];
      DistinctInit(ps);
      InEdgesDistinct(edges, init);
      if p in edges {
        forall e | e in InEdges(edges, init) ensures e != p {
          InEdgesMembers(edges, init, e);
        }
        DistinctAppend(InEdges(edges, init), [p]);
      }
    }
  }

  lemma MooreDistinct()
    ensures Distinct(Moore())
  {
    MooreOrder();
    RectDistinct(-1, 2, -1, 2);
  }

  /** With well-formed blocks, the second offset loop of a cell visits no pair
      twice: distinct offsets lead to distinct neighbours, whose blocks are
      disjoint. */
  lemma {:induction false} NeighbourPairsDistinct(rows: int, cols: int, blocks: BlockMap, c: Cell, offs: seq<Cell>)
    requires WellFormed(blocks, rows, cols) && InRange(c, rows, cols) && Distinct(offs)
    ensures Distinct(NeighbourPairs(rows, cols, blocks, c, offs))
  {
    if offs != [] {
      var init, o := offs[..|offs| - 1], offs[|offs| - 1];
      DistinctInit(offs);
      NeighbourPairsDistinct(rows, cols, blocks, c, init);
      var ps := NeighbourPairs(rows, cols, blocks, c, init);
      if IsNeighbour(rows, cols, c, o) {
        var b1, b2 := BlockAt(blocks, c), BlockAt(blocks, Shift(c, o));
        assert Distinct(b1) && Distinct(b2);
        ProductDistinct(b1, b2);
        forall p | p in ps ensures p !in Product(b1, b2) {
          OffsetsApart(rows, cols, blocks, c, init, o, p);
        }
        DistinctAppend(ps, Product(b1, b2));
        assert NeighbourPairs(rows, cols, blocks, c, offs) == ps + Product(b1, b2);
      } else {
        assert NeighbourPairs(rows, cols, blocks, c, offs) == ps + [];
      }
    }
  }

  /** A pair visited at an earlier offset is not a pair of the neighbour at a
      new offset `o`. */
  lemma OffsetsApart(rows: int, cols: int, blocks: BlockMap, c: Cell, init: seq<Cell>, o: Cell, p: Cell)
    requires Disjoint(blocks, rows, cols) && IsNeighbour(rows, cols, c, o) && o !in init
    requires p in NeighbourPairs(rows, cols, blocks, c, init)
    ensures p !in Product(BlockAt(blocks, c), BlockAt(blocks, Shift(c, o)))
  {
    NeighbourPairsMembers(rows, cols, blocks, c, init, p);
    var o' :| o' in init && IsNeighbour(rows, cols, c, o') && p.1 in BlockAt(blocks, Shift(c, o'));
    var d, e := Shift(c, o'), Shift(c, o);
    assert o' != o;
    assert d != e;
    DisjointAt(blocks, rows, cols, d, e, p.1);
    ProductMembers(BlockAt(blocks, c), BlockAt(blocks, e), p);
  }

  /** A coupler that appears once among the pairs of a tally receives exactly
      one addition: `+qubo_value` or `-qubo_value`, and `+qubo_value` without
      overpopulation modelling. */
  lemma CoupleOnce(s: Settings, c0: int, ps: seq<Cell>, k: Cell)
    requires Distinct(ps) && k in ps && k in s.edges
    ensures var d := Total(Couple(s, c0, ps).updates, k);
      (d == s.value || d == -s.value) && (!s.overpopulation ==> d == s.value)
  {
    var t, es := Couple(s, c0, ps), InEdges(s.edges, ps);
    CoupleThreshold(s, c0, ps);
    InEdgesDistinct(s.edges, ps);
    InEdgesMembers(s.edges, ps, k);
    var m :| 0 <= m < |es| && es[m] == k;
    forall i | 0 <= i < |t.updates| && i != m ensures t.updates[i].key != k {
      assert t.updates[i].key == es[i];
    }
    TotalOnce(t.updates, k, m);
  }

  /** Every addition cell `d` makes starts at a variable of its own block. */
  lemma CellKeyOwner(field: Grid, blocks: BlockMap, s: Settings, d: Cell, u: Update)
    requires u in CellCoupling(field, blocks, s)(d)
    ensures u.key.0 in BlockAt(blocks, d)
  {
    var ps := NeighbourPairs(|field|, Cols(field), blocks, d, Moore());
    CoupleMembers(s, AliveNeighbours(field, d, Moore()), ps, u);
    NeighbourPairsMembers(|field|, Cols(field), blocks, d, Moore(), u.key);
  }

  /** `used_qubits` after the pass: the variables of every block pair
      (alive cell, neighbour) in which both blocks are non-empty. */
  lemma UsedVarsMembers(field: Grid, blocks: BlockMap, cells: seq<Cell>, x: int)
    ensures x in UsedVars(field, blocks, cells) <==>
      exists d, o | d in cells && o in Moore() ::
        Alive(field, d.0, d.1) && IsNeighbour(|field|, Cols(field), d, o) &&
        BlockAt(blocks, d) != [] && BlockAt(blocks, Shift(d, o)) != [] &&
        (x in BlockAt(blocks, d) || x in BlockAt(blocks, Shift(d, o)))
  {
    var g := CellUsed(field, blocks);
    CollectMembers(g, cells, x);
    forall d | d in cells && Alive(field, d.0, d.1)
      ensures x in g(d) <==> exists o | o in Moore() ::
        IsNeighbour(|field|, Cols(field), d, o) &&
        BlockAt(blocks, d) != [] && BlockAt(blocks, Shift(d, o)) != [] &&
        (x in BlockAt(blocks, d) || x in BlockAt(blocks, Shift(d, o)))
    {
      UsedAt(|field|, Cols(field), blocks, d, Moore(), x);
    }
  }

  /** Offset `o` of cell `c` marks `x` as used: it leads to a neighbour, both
      blocks are non-empty, and `x` is in one of them. */
  predicate Marks(rows: int, cols: int, blocks: BlockMap, c: Cell, o: Cell, x: int)
  {
    IsNeighbour(rows, cols, c, o) && BlockAt(blocks, c) != [] && BlockAt(blocks, Shift(c, o)) != [] &&
    (x in BlockAt(blocks, c) || x in BlockAt(blocks, Shift(c, o)))
  }

  lemma {:induction false} UsedAt(rows: int, cols: int, blocks: BlockMap, c: Cell, offs: seq<Cell>, x: int)
    ensures x in Members(NeighbourPairs(rows, cols, blocks, c, offs)) <==>
      exists o | o in offs :: Marks(rows, cols, blocks, c, o, x)
  {
    if offs != [] {
      var init, o := offs[..|offs| - 1], offs[|offs| - 1];
      UsedAt(rows, cols, blocks, c, init, x);
      assert offs == init + [o];
      NeighbourPairsConcat(rows, cols, blocks, c, init, [o]);
      MembersConcat(NeighbourPairs(rows, cols, blocks, c, init), NeighbourPairs(rows, cols, blocks, c, [o]));
      MarksSingle(rows, cols, blocks, c, o, x);
      if exists o' | o' in offs :: Marks(rows, cols, blocks, c, o', x) {
        var o' :| o' in offs && Marks(rows, cols, blocks, c, o', x);
        if o' != o {
          assert o' in init;
        }
      }
    }
  }

  lemma MarksSingle(rows: int, cols: int, blocks: BlockMap, c: Cell, o: Cell, x: int)
    ensures x in Members(NeighbourPairs(rows, cols, blocks, c, [o])) <==> Marks(rows, cols, blocks, c, o, x)
  {
    SingleOffset(rows, cols, blocks, c, o);
    MembersProduct(BlockAt(blocks, c), BlockAt(blocks, Shift(c, o)));
  }

  lemma {:induction false} CollectMembers(g: Cell -> set<int>, cells: seq<Cell>, x: int)
    ensures x in Collect(g, cells) <==> exists d | d in cells :: x in g(d)
  {
    if cells != [] {
      var init := cells[..|cells| - 1];
      CollectMembers(g, init, x);
      assert cells == init + [cells[|cells| - 1]];
    }
  }

  /** A cell has at most eight alive neighbours: the centre offset is never
      counted. */
  lemma AliveNeighboursBound(field: Grid, c: Cell)
    ensures AliveNeighbours(field, c, Moore()) <= 8
  {
    var m := Moore();
    assert m == m[..4] + [(0, 0)] + m[5..];
    AliveNeighboursConcat(field, c, m[..4] + [(0, 0)], m[5..]);
    AliveNeighboursConcat(field, c, m[..4], [(0, 0)]);
    AliveNeighboursAtMost(field, c, m[..4]);
    AliveNeighboursAtMost(field, c, m[5..]);
    CountStep(field, c, [], (0, 0));
  }

  lemma {:induction false} AliveNeighboursAtMost(field: Grid, c: Cell, offs: seq<Cell>)
    ensures AliveNeighbours(field, c, offs) <= |offs|
  {
    if offs != [] {
      AliveNeighboursAtMost(field, c, offs[..|offs| - 1]);
    }
  }
}
