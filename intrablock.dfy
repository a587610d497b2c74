/** First pass of `makeStepOne` (qgol.py:73-81): intra-block consistency. For
    every cell, every ordered pair `(q_1, q_2)` of its block that the hardware
    graph couples in either direction adds 100 to both self-weights and -200 to
    the pair, whatever the cell's value. */
module IntraBlock {
  import opened Traversal
  import opened Qubo
  import opened Blocks

  /** The hardware graph couples `x` and `y`, in either direction. */
  predicate Linked(edges: set<Cell>, x: int, y: int)
  {
    (x, y) in edges || (y, x) in edges
  }

  /** The additions for one ordered pair `p = (q_1, q_2)`, in source order. */
  function PairPenalty(edges: set<Cell>, p: Cell): seq<Update>
  {
    if Linked(edges, p.0, p.1) then
      [Update((p.1, p.1), 100.0), Update((p.0, p.0), 100.0), Update(p, -200.0)]
    else []
  }

  /** The additions for the pairs `ps`, in order. */
  function Penalties(edges: set<Cell>, ps: seq<Cell>): seq<Update>
  {
    if ps == [] then [] else Penalties(edges, ps[..|ps| - 1]) + PairPenalty(edges, ps[|ps| - 1])
  }

  /** The additions for one block: its ordered pairs, `q_1` outer, `q_2` inner. */
  function BlockPenalty(edges: set<Cell>, b: seq<int>): seq<Update>
  {
    Penalties(edges, Product(b, b))
  }

  /** The additions for the block of a cell. */
  function CellPenalty(blocks: BlockMap, edges: set<Cell>): Cell -> seq<Update>
  {
    c => BlockPenalty(edges, BlockAt(blocks, c))
  }

  /** The additions of the pass for the cells `cells`, in order. */
  function ConsistencyUpdates(blocks: BlockMap, edges: set<Cell>, cells: seq<Cell>): seq<Update>
  {
    Gather(CellPenalty(blocks, edges), cells)
  }

  /** The number of members of `ys` other than `a` that the graph couples to `a`. */
  function Partners(edges: set<Cell>, a: int, ys: seq<int>): nat
  {
    if ys == [] then 0
    else Partners(edges, a, ys[..|ys| - 1]) + (if ys[|ys| - 1] != a && Linked(edges, a, ys[|ys| - 1]) then 1 else 0)
  }

  /** Runs the pass over a `rows` x `cols` field (qgol.py:74-81). */
  method ConsistencyPass(qubo: Weights, n: nat, rows: nat, cols: nat, blocks: BlockMap, edges: set<Cell>)
    returns (q: Weights)
    requires Holds(qubo, n) && Covers(blocks, rows, cols) && IndicesBelow(blocks, rows, cols, n)
    ensures q == Apply(qubo, ConsistencyUpdates(blocks, edges, Rect(0, rows, 0, cols)))
    ensures q.Keys == qubo.Keys
  {
    q := qubo;
    var i := 0;
    while i < rows
      invariant 0 <= i <= rows
      invariant q.Keys == qubo.Keys
      invariant q == Apply(qubo, ConsistencyUpdates(blocks, edges, Rect(0, i, 0, cols)))
    {
      q := ConsistencyRow(q, n, rows, cols, blocks, edges, i);
      GatherConcat(CellPenalty(blocks, edges), Rect(0, i, 0, cols), Span(i, 0, cols));
      ApplyConcat(qubo, ConsistencyUpdates(blocks, edges, Rect(0, i, 0, cols)), ConsistencyUpdates(blocks, edges, Span(i, 0, cols)));
      i := i + 1;
    }
  }

  /** The loop over the cells of row `i`. */
  method ConsistencyRow(w: Weights, n: nat, rows: nat, cols: nat, blocks: BlockMap, edges: set<Cell>, i: int)
    returns (q: Weights)
    requires Holds(w, n) && Covers(blocks, rows, cols) && IndicesBelow(blocks, rows, cols, n) && 0 <= i < rows
    ensures q == Apply(w, ConsistencyUpdates(blocks, edges, Span(i, 0, cols)))
    ensures q.Keys == w.Keys
  {
    q := w;
    var j := 0;
    while j < cols
      invariant 0 <= j <= cols
      invariant q.Keys == w.Keys
      invariant q == Apply(w, ConsistencyUpdates(blocks, edges, Span(i, 0, j)))
    {
      BlockBelow(blocks, rows, cols, n, (i, j));
      ghost var v := q;
      q := PenalizeBlock(q, n, blocks[(i, j)], edges);
      CellStep(w, v, blocks, edges, Span(i, 0, j), (i, j));
      SpanAppend(i, 0, j);
      j := j + 1;
    }
  }

  /** The two inner loops over one block (qgol.py:76-81). */
  method PenalizeBlock(q0: Weights, n: nat, block: seq<int>, edges: set<Cell>) returns (q: Weights)
    requires Holds(q0, n) && forall x | x in block :: 0 <= x < n
    ensures q == Apply(q0, BlockPenalty(edges, block))
    ensures q.Keys == q0.Keys
  {
    q := q0;
    var t := 0;
    while t < |block|
      invariant 0 <= t <= |block|
      invariant q.Keys == q0.Keys
      invariant q == Apply(q0, Penalties(edges, Product(block[..t], block)))
    {
      assert block[t] in block;
      ghost var v := q;
      q := PenalizeRow(q, n, block[t], block, edges);
      RowStep(q0, v, q, edges, block, t);
      t := t + 1;
    }
    assert block[..|block|] == block;
  }

  lemma RowStep(q0: Weights, v: Weights, q: Weights, edges: set<Cell>, block: seq<int>, t: nat)
    requires t < |block|
    requires v == Apply(q0, Penalties(edges, Product(block[..t], block)))
    requires q == Apply(v, Penalties(edges, Pairs(block[t], block)))
    ensures q == Apply(q0, Penalties(edges, Product(block[..t + 1], block)))
  {
    ProductAppend(block, block, t);
    PenaltiesConcat(edges, Product(block[..t], block), Pairs(block[t], block));
    ApplyConcat(q0, Penalties(edges, Product(block[..t], block)), Penalties(edges, Pairs(block[t], block)));
  }

  /** The innermost loop: `q_1` fixed, `q_2` running over the block. */
  method PenalizeRow(w: Weights, n: nat, q1: int, block: seq<int>, edges: set<Cell>) returns (q: Weights)
    requires Holds(w, n) && 0 <= q1 < n && forall x | x in block :: 0 <= x < n
    ensures q == Apply(w, Penalties(edges, Pairs(q1, block)))
    ensures q.Keys == w.Keys
  {
    q := w;
    var t := 0;
    while t < |block|
      invariant 0 <= t <= |block|
      invariant q.Keys == w.Keys
      invariant q == Apply(w, Penalties(edges, Pairs(q1, block[..t])))
    {
      var q2 := block[t];
      assert (q1, q1) in q && (q2, q2) in q && (q1, q2) in q by {
        assert q2 in block;
      }
      ghost var v := q;
      q := PenalizePair(q, q1, q2, edges);
      PairsAppend(q1, block, t);
      PenaltyStep(w, v, edges, Pairs(q1, block[..t]), (q1, q2));
      t := t + 1;
    }
    assert block[..|block|] == block;
  }

  /** The body of the inner loop: one pair of the block, penalised when the
      two variables are coupled in either direction (qgol.py:78-81). */
  method PenalizePair(w: Weights, q1: int, q2: int, edges: set<Cell>) returns (q: Weights)
    requires (q1, q1) in w && (q2, q2) in w && (q1, q2) in w
    ensures q == Apply(w, PairPenalty(edges, (q1, q2)))
    ensures q.Keys == w.Keys
  {
    q := w;
    if (q1, q2) in edges || (q2, q1) in edges {
      var u1, u2, u3 := Update((q2, q2), 100.0), Update((q1, q1), 100.0), Update((q1, q2), -200.0);
      assert PairPenalty(edges, (q1, q2)) == [u1, u2, u3];
      ApplyThree(w, u1, u2, u3);
      q := q[(q2, q2) := q[(q2, q2)] + 100.0];
      assert q == AddTo(w, u1);
      ghost var q' := q;
      q := q[(q1, q1) := q[(q1, q1)] + 100.0];
      assert q == AddTo(q', u2);
      ghost var q'' := q;
      q := q[(q1, q2) := q[(q1, q2)] - 200.0];
      assert q == AddTo(q'', u3);
    } else {
      assert PairPenalty(edges, (q1, q2)) == [];
    }
  }

  lemma PenaltyStep(q0: Weights, w: Weights, edges: set<Cell>, done: seq<Cell>, p: Cell)
    requires w == Apply(q0, Penalties(edges, done))
    ensures Apply(w, PairPenalty(edges, p)) == Apply(q0, Penalties(edges, done + [p]))
  {
    PenaltiesAppend(edges, done, p);
    ApplyConcat(q0, Penalties(edges, done), PairPenalty(edges, p));
  }

  lemma CellStep(qubo: Weights, w: Weights, blocks: BlockMap, edges: set<Cell>, done: seq<Cell>, c: Cell)
    requires w == Apply(qubo, ConsistencyUpdates(blocks, edges, done))
    ensures Apply(w, BlockPenalty(edges, BlockAt(blocks, c))) == Apply(qubo, ConsistencyUpdates(blocks, edges, done + [c]))
  {
    GatherAppend(CellPenalty(blocks, edges), done, c);
    ApplyConcat(qubo, ConsistencyUpdates(blocks, edges, done), BlockPenalty(edges, BlockAt(blocks, c)));
  }

  lemma PenaltiesAppend(edges: set<Cell>, ps: seq<Cell>, p: Cell)
    ensures Penalties(edges, ps + [p]) == Penalties(edges, ps) + PairPenalty(edges, p)
  {
    assert (ps + [p])[..|ps|] == ps;
  }

  lemma {:induction false} PenaltiesConcat(edges: set<Cell>, ps: seq<Cell>, qs: seq<Cell>)
    ensures Penalties(edges, ps + qs) == Penalties(edges, ps) + Penalties(edges, qs)
  {
    if qs == [] {
      assert ps + qs == ps;
    } else {
      var init, p := qs[..|qs| - 1], qs[|qs| - 1];
      assert (ps + qs)[..|ps + qs| - 1] == ps + init;
      assert (ps + qs)[|ps + qs| - 1] == p;
      PenaltiesConcat(edges, ps, init);
      assert Penalties(edges, ps + qs) == (Penalties(edges, ps) + Penalties(edges, init)) + PairPenalty(edges, p);
    }
  }

  lemma PairPenaltyTotal(edges: set<Cell>, p: Cell, k: Key)
    ensures Total(PairPenalty(edges, p), k) ==
      if Linked(edges, p.0, p.1) then
        (if k == (p.1, p.1) then 100.0 else 0.0) + (if k == (p.0, p.0) then 100.0 else 0.0) + (if k == p then -200.0 else 0.0)
      else 0.0
  {
    if Linked(edges, p.0, p.1) {
      var u1, u2, u3 := Update((p.1, p.1), 100.0), Update((p.0, p.0), 100.0), Update(p, -200.0);
      assert PairPenalty(edges, p) == [u1, u2, u3];
      assert [u1, u2, u3][..2] == [u1, u2];
      assert [u1, u2][..1] == [u1];
      assert [u1][..0] == [];
      assert Total([u1], k) == if u1.key == k then u1.delta else 0.0;
      assert Total([u1, u2], k) == Total([u1], k) + if u2.key == k then u2.delta else 0.0;
      assert Total([u1, u2, u3], k) == Total([u1, u2], k) + if u3.key == k then u3.delta else 0.0;
    }
  }

  /** Off the diagonal, the row `(x, y) for y in ys` weighs `(a, c)` only
      through the pair equal to it. */
  lemma {:induction false} RowOff(edges: set<Cell>, x: int, ys: seq<int>, a: int, c: int)
    requires a != c && Distinct(ys)
    ensures Total(Penalties(edges, Pairs(x, ys)), (a, c)) ==
      if x == a && c in ys && Linked(edges, a, c) then -200.0 else 0.0
  {
    if ys != [] {
      var init, y := ys[..|ys| - 1], ys[|ys| - 1];
      var ps := Pairs(x, init);
      assert (ps + [(x, y)])[..|ps|] == ps;
      DistinctInit(ys);
      assert ys == init + [y];
      RowOff(edges, x, init, a, c);
      TotalConcat(Penalties(edges, ps), PairPenalty(edges, (x, y)), (a, c));
      PairPenaltyTotal(edges, (x, y), (a, c));
    }
  }

  lemma {:induction false} ProductOff(edges: set<Cell>, xs: seq<int>, ys: seq<int>, a: int, c: int)
    requires a != c && Distinct(xs) && Distinct(ys)
    ensures Total(Penalties(edges, Product(xs, ys)), (a, c)) ==
      if a in xs && c in ys && Linked(edges, a, c) then -200.0 else 0.0
  {
    if xs != [] {
      var init, x := xs[..|xs| - 1], xs[|xs| - 1];
      DistinctInit(xs);
      assert xs == init + [x];
      ProductOff(edges, init, ys, a, c);
      PenaltiesConcat(edges, Product(init, ys), Pairs(x, ys));
      TotalConcat(Penalties(edges, Product(init, ys)), Penalties(edges, Pairs(x, ys)), (a, c));
      RowOff(edges, x, ys, a, c);
    }
  }

  /** On the diagonal, the row of `a` weighs `(a, a)` by 100 per partner, and
      the row of a partner `x` by 100 if `a` is in the row. */
  lemma {:induction false} RowSelf(edges: set<Cell>, x: int, ys: seq<int>, a: int)
    requires Distinct(ys)
    ensures Total(Penalties(edges, Pairs(x, ys)), (a, a)) ==
      if x == a then 100.0 * (Partners(edges, a, ys) as real)
      else if Linked(edges, x, a) && a in ys then 100.0
      else 0.0
  {
    if ys != [] {
      var init, y := ys[..|ys| - 1], ys[|ys| - 1];
      var ps := Pairs(x, init);
      assert (ps + [(x, y)])[..|ps|] == ps;
      DistinctInit(ys);
      assert ys == init + [y];
      RowSelf(edges, x, init, a);
      TotalConcat(Penalties(edges, ps), PairPenalty(edges, (x, y)), (a, a));
      PairPenaltyTotal(edges, (x, y), (a, a));
    }
  }

  lemma {:induction false} ProductSelf(edges: set<Cell>, xs: seq<int>, ys: seq<int>, a: int)
    requires Distinct(xs) && Distinct(ys)
    ensures Total(Penalties(edges, Product(xs, ys)), (a, a)) ==
      (if a in xs then 100.0 * (Partners(edges, a, ys) as real) else 0.0) +
      (if a in ys then 100.0 * (Partners(edges, a, xs) as real) else 0.0)
  {
    if xs != [] {
      var init, x := xs[..|xs| - 1], xs[|xs| - 1];
      DistinctInit(xs);
      assert xs == init + [x];
      ProductSelf(edges, init, ys, a);
      PenaltiesConcat(edges, Product(init, ys), Pairs(x, ys));
      TotalConcat(Penalties(edges, Product(init, ys)), Penalties(edges, Pairs(x, ys)), (a, a));
      RowSelf(edges, x, ys, a);
    }
  }

  /** Every addition of the pass for pairs inside `s` stays inside `s`, and an
      off-diagonal one is on a coupled pair. */
  lemma {:induction false} PenaltiesKeys(edges: set<Cell>, ps: seq<Cell>, s: set<int>)
    requires forall p | p in ps :: p.0 in s && p.1 in s
    ensures forall u | u in Penalties(edges, ps) ::
      u.key.0 in s && u.key.1 in s && (u.key.0 == u.key.1 || Linked(edges, u.key.0, u.key.1))
  {
    if ps != [] {
      PenaltiesKeys(edges, ps[..|ps| - 1], s);
      assert ps[|ps| - 1] in ps;
    }
  }

  lemma BlockPenaltyKeys(edges: set<Cell>, b: seq<int>)
    ensures forall u | u in BlockPenalty(edges, b) ::
      u.key.0 in b && u.key.1 in b && (u.key.0 == u.key.1 || Linked(edges, u.key.0, u.key.1))
  {
    forall p | p in Product(b, b) ensures p.0 in Elems(b) && p.1 in Elems(b) {
      ProductMembers(b, b, p);
    }
    PenaltiesKeys(edges, Product(b, b), Elems(b));
  }

  /** Inside a block without repetitions, an undirected edge `{a, c}` weighs
      -200 on `(a, c)`, and 0 if the two are not coupled. */
  lemma BlockPairWeight(edges: set<Cell>, b: seq<int>, a: int, c: int)
    requires Distinct(b) && a in b && c in b && a != c
    ensures Total(BlockPenalty(edges, b), (a, c)) == if Linked(edges, a, c) then -200.0 else 0.0
  {
    ProductOff(edges, b, b, a, c);
  }

  /** Inside a block without repetitions, every member gets +200 on its
      self-weight per coupled partner in the block (a self-loop adds nothing). */
  lemma BlockSelfWeight(edges: set<Cell>, b: seq<int>, a: int)
    requires Distinct(b) && a in b
    ensures Total(BlockPenalty(edges, b), (a, a)) == 200.0 * (Partners(edges, a, b) as real)
  {
    ProductSelf(edges, b, b, a);
  }

  /** A key whose first variable is in none of the blocks gets nothing. */
  lemma ConsistencyOutside(blocks: BlockMap, edges: set<Cell>, cells: seq<Cell>, k: Key)
    requires forall d | d in cells :: k.0 !in BlockAt(blocks, d)
    ensures Total(ConsistencyUpdates(blocks, edges, cells), k) == 0.0
  {
    forall d | d in cells ensures Total(CellPenalty(blocks, edges)(d), k) == 0.0 {
      BlockPenaltyKeys(edges, BlockAt(blocks, d));
      TotalAbsent(BlockPenalty(edges, BlockAt(blocks, d)), k);
    }
    GatherAbsent(CellPenalty(blocks, edges), cells, k);
  }

  /** With disjoint blocks, a key inside the block of cell `c` is weighted by
      that block alone. */
  lemma ConsistencyAt(blocks: BlockMap, rows: int, cols: int, edges: set<Cell>, cells: seq<Cell>, c: Cell, k: Key)
    requires Disjoint(blocks, rows, cols) && Distinct(cells)
    requires forall d | d in cells :: InRange(d, rows, cols)
    requires c in cells && k.0 in BlockAt(blocks, c)
    ensures Total(ConsistencyUpdates(blocks, edges, cells), k) == Total(BlockPenalty(edges, BlockAt(blocks, c)), k)
  {
    forall d | d in cells && d != c ensures Total(CellPenalty(blocks, edges)(d), k) == 0.0 {
      DisjointAt(blocks, rows, cols, c, d, k.0);
      BlockPenaltyKeys(edges, BlockAt(blocks, d));
      TotalAbsent(BlockPenalty(edges, BlockAt(blocks, d)), k);
    }
    GatherAt(CellPenalty(blocks, edges), cells, c, k);
  }

  /** Every key the pass adds to lies inside one block, and off the diagonal
      it is a coupled pair. */
  lemma ConsistencyKeys(blocks: BlockMap, edges: set<Cell>, cells: seq<Cell>, u: Update)
    requires u in ConsistencyUpdates(blocks, edges, cells)
    ensures exists d | d in cells :: u.key.0 in BlockAt(blocks, d) && u.key.1 in BlockAt(blocks, d)
    ensures u.key.0 == u.key.1 || Linked(edges, u.key.0, u.key.1)
  {
    GatherMember(CellPenalty(blocks, edges), cells, u);
    var d :| d in cells && u in CellPenalty(blocks, edges)(d);
    BlockPenaltyKeys(edges, BlockAt(blocks, d));
  }
}
