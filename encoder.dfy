/** The QUBO that `makeStepOne` submits (qgol.py:70-130): a dictionary over all
    pairs of the first `len(nodes)` variables, initialised to 0, changed by the
    four passes in order, then stripped of the entries of magnitude at most
    `1e-7`. The lemmas below state what each weight of the submitted QUBO is. */
module Encoder {
  import opened Traversal
  import opened Qubo
  import opened Blocks
  import opened Field
  import opened IntraBlock
  import opened Pinning
  import opened Coupling
  import opened Isolation

  /** The cells of the field in the order of its loops. */
  function Cells(field: Grid): seq<Cell>
  {
    Rect(0, |field|, 0, Cols(field))
  }

  /** `used_qubits` after the coupling pass. */
  function Used(field: Grid, blocks: BlockMap): set<int>
  {
    UsedVars(field, blocks, Cells(field))
  }

  /** Every addition of the four passes, in the order the source performs them. */
  function StepUpdates(n: nat, field: Grid, draws: Draws, prob: real, blocks: BlockMap, s: Settings): seq<Update>
  {
    var cells := Cells(field);
    ConsistencyUpdates(blocks, s.edges, cells) + PinUpdates(field, draws, prob, blocks, cells) +
      CouplingUpdates(field, blocks, s, cells) + IsolationUpdates(Used(field, blocks), n)
  }

  /** The dictionary before pruning. */
  function Weight(n: nat, field: Grid, draws: Draws, prob: real, blocks: BlockMap, s: Settings): Weights
  {
    Apply(InitQubo(n), StepUpdates(n, field, draws, prob, blocks, s))
  }

  /** The dictionary that is submitted to the annealer. */
  function Encoded(n: nat, field: Grid, draws: Draws, prob: real, blocks: BlockMap, s: Settings): Weights
  {
    Prune(Weight(n, field, draws, prob, blocks, s))
  }

  /** Builds the QUBO of one step for a hardware graph with `nodes` and the
      couplers `s.edges`; `draws` holds the pinning draws of the cells. */
  method EncodeQubo(nodes: set<int>, field: Grid, draws: Draws, prob: real, blocks: BlockMap, s: Settings)
    returns (qubo: Weights)
    requires IsRect(field) && SameShape(draws, field)
    requires Covers(blocks, |field|, Cols(field)) && IndicesBelow(blocks, |field|, Cols(field), |nodes|)
    ensures qubo == Encoded(|nodes|, field, draws, prob, blocks, s)
  {
    var w := RunPasses(|nodes|, field, draws, prob, blocks, s);
    qubo := Prune(w);
  }

  /** The dictionary of all pairs of the first `n` variables, through the four
      passes. */
  method RunPasses(n: nat, field: Grid, draws: Draws, prob: real, blocks: BlockMap, s: Settings)
    returns (w: Weights)
    requires IsRect(field) && SameShape(draws, field)
    requires Covers(blocks, |field|, Cols(field)) && IndicesBelow(blocks, |field|, Cols(field), n)
    ensures w == Weight(n, field, draws, prob, blocks, s)
  {
    var q0 := InitQubo(n);
    var q2 := FieldPasses(q0, n, field, draws, prob, blocks, s.edges);
    HoldsKeys(q0, q2, n);
    var q3, used := CouplingPass(q2, n, field, blocks, s);
    HoldsKeys(q0, q3, n);
    var q4 := IsolationPass(q3, n, used);
    Chain(q0, q2, q3, q4, n, field, draws, prob, blocks, s);
    w := q4;
  }

  /** The first two passes, which depend on the field cell by cell only. */
  method FieldPasses(q0: Weights, n: nat, field: Grid, draws: Draws, prob: real, blocks: BlockMap, edges: set<Cell>)
    returns (q2: Weights)
    requires IsRect(field) && SameShape(draws, field) && q0 == InitQubo(n)
    requires Covers(blocks, |field|, Cols(field)) && IndicesBelow(blocks, |field|, Cols(field), n)
    ensures q2 == Apply(q0, ConsistencyUpdates(blocks, edges, Cells(field)) + PinUpdates(field, draws, prob, blocks, Cells(field)))
    ensures q2.Keys == q0.Keys
  {
    HoldsKeys(q0, q0, n);
    var q1 := ConsistencyPass(q0, n, |field|, Cols(field), blocks, edges);
    HoldsKeys(q0, q1, n);
    q2 := PinningPass(q1, n, field, draws, prob, blocks);
    ApplyConcat(q0, ConsistencyUpdates(blocks, edges, Cells(field)), PinUpdates(field, draws, prob, blocks, Cells(field)));
  }

  lemma HoldsKeys(q: Weights, q': Weights, n: nat)
    requires q == InitQubo(n) && q'.Keys == q.Keys
    ensures Holds(q', n)
  {
    forall i, j | 0 <= i < n && 0 <= j < n ensures (i, j) in q' {
      assert (i, j) in q;
    }
  }

  /** The four passes one after the other apply `StepUpdates`. */
  lemma Chain(q0: Weights, q2: Weights, q3: Weights, q4: Weights,
              n: nat, field: Grid, draws: Draws, prob: real, blocks: BlockMap, s: Settings)
    requires q2 == Apply(q0, ConsistencyUpdates(blocks, s.edges, Cells(field)) + PinUpdates(field, draws, prob, blocks, Cells(field)))
    requires q3 == Apply(q2, CouplingUpdates(field, blocks, s, Cells(field)))
    requires q4 == Apply(q3, IsolationUpdates(Used(field, blocks), n))
    requires q0 == InitQubo(n)
    ensures q4 == Weight(n, field, draws, prob, blocks, s)
  {
    var cells := Cells(field);
    var u1, u2 := ConsistencyUpdates(blocks, s.edges, cells), PinUpdates(field, draws, prob, blocks, cells);
    var u3, u4 := CouplingUpdates(field, blocks, s, cells), IsolationUpdates(Used(field, blocks), n);
    ApplyConcat(q0, u1 + u2, u3);
    ApplyConcat(q0, u1 + u2 + u3, u4);
  }

  /** Before pruning, every weight of the `n` x `n` dictionary is the sum of
      what the four passes add to it. */
  lemma WeightAt(n: nat, field: Grid, draws: Draws, prob: real, blocks: BlockMap, s: Settings, k: Key)
    ensures Weight(n, field, draws, prob, blocks, s).Keys == InitQubo(n).Keys
    ensures 0 <= k.0 < n && 0 <= k.1 < n ==>
      k in Weight(n, field, draws, prob, blocks, s) &&
      Weight(n, field, draws, prob, blocks, s)[k] ==
        Total(ConsistencyUpdates(blocks, s.edges, Cells(field)), k) +
        Total(PinUpdates(field, draws, prob, blocks, Cells(field)), k) +
        Total(CouplingUpdates(field, blocks, s, Cells(field)), k) +
        Total(IsolationUpdates(Used(field, blocks), n), k)
  {
    var cells := Cells(field);
    var u1, u2 := ConsistencyUpdates(blocks, s.edges, cells), PinUpdates(field, draws, prob, blocks, cells);
    var u3, u4 := CouplingUpdates(field, blocks, s, cells), IsolationUpdates(Used(field, blocks), n);
    ApplyAt(InitQubo(n), u1 + u2 + u3 + u4, k);
    TotalConcat(u1 + u2 + u3, u4, k);
    TotalConcat(u1 + u2, u3, k);
    TotalConcat(u1, u2, k);
  }

  /** The coupling pass never writes a pair inside one block: it only joins a
      block to the block of a different cell. */
  lemma CouplingInsideBlock(field: Grid, blocks: BlockMap, s: Settings, c: Cell, k: Key)
    requires Disjoint(blocks, |field|, Cols(field)) && InRange(c, |field|, Cols(field))
    requires k.0 in BlockAt(blocks, c) && k.1 in BlockAt(blocks, c)
    ensures Total(CouplingUpdates(field, blocks, s, Cells(field)), k) == 0.0
  {
    forall u | u in CouplingUpdates(field, blocks, s, Cells(field)) ensures u.key != k {
      CouplingUpdateApart(field, blocks, s, c, k, u);
    }
    TotalAbsent(CouplingUpdates(field, blocks, s, Cells(field)), k);
  }

  /** One update of the coupling pass joins the blocks of two different cells,
      so it cannot hit a pair inside the block of `c`. */
  lemma CouplingUpdateApart(field: Grid, blocks: BlockMap, s: Settings, c: Cell, k: Key, u: Update)
    requires Disjoint(blocks, |field|, Cols(field)) && InRange(c, |field|, Cols(field))
    requires k.0 in BlockAt(blocks, c) && k.1 in BlockAt(blocks, c)
    requires u in CouplingUpdates(field, blocks, s, Cells(field))
    ensures u.key != k
  {
    var rows, cols := |field|, Cols(field);
    CouplingTouches(field, blocks, s, Cells(field), u);
    var d, o :| d in Cells(field) && o in Moore() &&
      Alive(field, d.0, d.1) && IsNeighbour(rows, cols, d, o) &&
      u.key.0 in BlockAt(blocks, d) && u.key.1 in BlockAt(blocks, Shift(d, o));
    RectMembers(0, rows, 0, cols, d);
    if u.key == k {
      if d != c {
        DisjointAt(blocks, rows, cols, c, d, k.0);
      } else {
        DisjointAt(blocks, rows, cols, c, Shift(d, o), k.1);
      }
    }
  }

  /** A variable in no block is never marked used and gets no weight from the
      first three passes. */
  lemma OutsideBlocks(field: Grid, draws: Draws, prob: real, blocks: BlockMap, s: Settings, k: Key)
    requires forall d | InRange(d, |field|, Cols(field)) :: k.0 !in BlockAt(blocks, d)
    ensures k.0 !in Used(field, blocks)
    ensures Total(ConsistencyUpdates(blocks, s.edges, Cells(field)), k) == 0.0
    ensures Total(PinUpdates(field, draws, prob, blocks, Cells(field)), k) == 0.0
    ensures Total(CouplingUpdates(field, blocks, s, Cells(field)), k) == 0.0
  {
    var rows, cols, cells := |field|, Cols(field), Cells(field);
    forall d | d in cells ensures k.0 !in BlockAt(blocks, d) {
      RectMembers(0, rows, 0, cols, d);
    }
    ConsistencyOutside(blocks, s.edges, cells, k);
    PinningOutside(field, draws, prob, blocks, cells, k);
    UsedVarsMembers(field, blocks, cells, k.0);
    forall u | u in CouplingUpdates(field, blocks, s, cells) ensures u.key != k {
      CouplingTouches(field, blocks, s, cells, u);
    }
    TotalAbsent(CouplingUpdates(field, blocks, s, cells), k);
  }

  /** The submitted QUBO fits the hardware: its keys are pairs of variables
      below `len(nodes)`, and it has no entry on a pair of distinct variables
      that no coupler of the graph joins (in either direction). */
  lemma EncodedEmbeddable(n: nat, field: Grid, draws: Draws, prob: real, blocks: BlockMap, s: Settings, k: Key)
    ensures k in Encoded(n, field, draws, prob, blocks, s) ==> 0 <= k.0 < n && 0 <= k.1 < n
    ensures k.0 != k.1 && !Linked(s.edges, k.0, k.1) ==> k !in Encoded(n, field, draws, prob, blocks, s)
  {
    var cells := Cells(field);
    WeightAt(n, field, draws, prob, blocks, s, k);
    if k.0 != k.1 && !Linked(s.edges, k.0, k.1) {
      forall u | u in ConsistencyUpdates(blocks, s.edges, cells) ensures u.key != k {
        ConsistencyKeys(blocks, s.edges, cells, u);
      }
      TotalAbsent(ConsistencyUpdates(blocks, s.edges, cells), k);
      PinningOutside(field, draws, prob, blocks, cells, k);
      forall u | u in CouplingUpdates(field, blocks, s, cells) ensures u.key != k {
        CouplingTouches(field, blocks, s, cells, u);
      }
      TotalAbsent(CouplingUpdates(field, blocks, s, cells), k);
      IsolationAt(Used(field, blocks), n, k);
    }
  }

  /** The weight pass 3 leaves on a coupler from the block of an alive cell
      `c` to the block of one of its neighbours, alive or dead: exactly one
      addition reaches it, `+qubo_value` or `-qubo_value`, and `+qubo_value`
      without overpopulation modelling. */
  lemma CouplerTotal(field: Grid, blocks: BlockMap, s: Settings, c: Cell, o: Cell, a: int, b: int)
    requires WellFormed(blocks, |field|, Cols(field)) && InRange(c, |field|, Cols(field)) && Alive(field, c.0, c.1)
    requires o in Moore() && IsNeighbour(|field|, Cols(field), c, o)
    requires a in BlockAt(blocks, c) && b in BlockAt(blocks, Shift(c, o)) && (a, b) in s.edges
    ensures var d := Total(CouplingUpdates(field, blocks, s, Cells(field)), (a, b));
      (d == s.value || d == -s.value) && (!s.overpopulation ==> d == s.value)
  {
    var rows, cols, cells := |field|, Cols(field), Cells(field);
    var f, k := CellCoupling(field, blocks, s), (a, b);
    CellsInRange(field, c);
    forall d | d in cells && d != c ensures Total(f(d), k) == 0.0 {
      forall u | u in f(d) ensures u.key != k {
        CellKeyOwner(field, blocks, s, d, u);
        DisjointAt(blocks, rows, cols, c, d, a);
      }
      TotalAbsent(f(d), k);
    }
    GatherAt(f, cells, c, k);
    var ps := NeighbourPairs(rows, cols, blocks, c, Moore());
    MooreDistinct();
    NeighbourPairsDistinct(rows, cols, blocks, c, Moore());
    NeighbourPairsMembers(rows, cols, blocks, c, Moore(), k);
    CoupleOnce(s, AliveNeighbours(field, c, Moore()), ps, k);
  }

  /** A coupler from the block of an alive cell to the block of a neighbour
      carries exactly the coupling weight: `+qubo_value` or `-qubo_value`,
      `+qubo_value` without overpopulation modelling. */
  lemma CouplerWeight(n: nat, field: Grid, draws: Draws, prob: real, blocks: BlockMap, s: Settings,
                      c: Cell, o: Cell, a: int, b: int)
    requires WellFormed(blocks, |field|, Cols(field)) && InRange(c, |field|, Cols(field)) && Alive(field, c.0, c.1)
    requires o in Moore() && IsNeighbour(|field|, Cols(field), c, o)
    requires a in BlockAt(blocks, c) && b in BlockAt(blocks, Shift(c, o)) && (a, b) in s.edges
    requires 0 <= a < n && 0 <= b < n
    ensures var w := Weight(n, field, draws, prob, blocks, s);
      (a, b) in w && (w[(a, b)] == s.value || w[(a, b)] == -s.value) && (!s.overpopulation ==> w[(a, b)] == s.value)
  {
    var e := Shift(c, o);
    var k, cells := (a, b), Cells(field);
    NoSharedBlock(blocks, |field|, Cols(field), c, e, a, b);
    CouplerTotal(field, blocks, s, c, o, a, b);
    CrossBlockConsistency(field, blocks, s.edges, a, b);
    PinningOutside(field, draws, prob, blocks, cells, k);
    IsolationAt(Used(field, blocks), n, k);
    WeightAt(n, field, draws, prob, blocks, s, k);
  }

  /** Such a coupler is submitted exactly when `qubo_value` exceeds the
      pruning threshold in magnitude, and then with its weight. */
  lemma CouplerSubmitted(n: nat, field: Grid, draws: Draws, prob: real, blocks: BlockMap, s: Settings,
                         c: Cell, o: Cell, a: int, b: int)
    requires WellFormed(blocks, |field|, Cols(field)) && InRange(c, |field|, Cols(field)) && Alive(field, c.0, c.1)
    requires o in Moore() && IsNeighbour(|field|, Cols(field), c, o)
    requires a in BlockAt(blocks, c) && b in BlockAt(blocks, Shift(c, o)) && (a, b) in s.edges
    requires 0 <= a < n && 0 <= b < n
    ensures var q := Encoded(n, field, draws, prob, blocks, s);
      ((a, b) in q <==> Abs(s.value) > Epsilon) &&
      ((a, b) in q ==> (q[(a, b)] == s.value || q[(a, b)] == -s.value) && (!s.overpopulation ==> q[(a, b)] == s.value))
  {
    CouplerWeight(n, field, draws, prob, blocks, s, c, o, a, b);
    PruneMagnitude(Weight(n, field, draws, prob, blocks, s), (a, b), s.value);
  }

  /** Two variables of the blocks of two different cells are distinct, and no
      block holds both. */
  lemma NoSharedBlock(blocks: BlockMap, rows: int, cols: int, c: Cell, e: Cell, a: int, b: int)
    requires Disjoint(blocks, rows, cols) && InRange(c, rows, cols) && InRange(e, rows, cols)
    requires c != e && a in BlockAt(blocks, c) && b in BlockAt(blocks, e)
    ensures a != b && Apart(blocks, rows, cols, a, b)
  {
    DisjointAt(blocks, rows, cols, c, e, a);
    forall d | InRange(d, rows, cols) ensures !(a in BlockAt(blocks, d) && b in BlockAt(blocks, d)) {
      if d != c {
        DisjointAt(blocks, rows, cols, c, d, a);
      } else {
        DisjointAt(blocks, rows, cols, e, c, b);
      }
    }
  }

  /** No block of the field holds both `a` and `b`. */
  ghost predicate Apart(blocks: BlockMap, rows: int, cols: int, a: int, b: int)
  {
    forall d | InRange(d, rows, cols) :: !(a in BlockAt(blocks, d) && b in BlockAt(blocks, d))
  }

  /** The consistency pass writes nothing on a pair that no block holds. */
  lemma CrossBlockConsistency(field: Grid, blocks: BlockMap, edges: set<Cell>, a: int, b: int)
    requires Apart(blocks, |field|, Cols(field), a, b)
    ensures Total(ConsistencyUpdates(blocks, edges, Cells(field)), (a, b)) == 0.0
  {
    var rows, cols, cells := |field|, Cols(field), Cells(field);
    forall u | u in ConsistencyUpdates(blocks, edges, cells) ensures u.key != (a, b) {
      ConsistencyKeys(blocks, edges, cells, u);
      var d :| d in cells && u.key.0 in BlockAt(blocks, d) && u.key.1 in BlockAt(blocks, d);
      RectMembers(0, rows, 0, cols, d);
      assert !(a in BlockAt(blocks, d) && b in BlockAt(blocks, d));
    }
    TotalAbsent(ConsistencyUpdates(blocks, edges, cells), (a, b));
  }

  /** The loops over the field visit each of its cells once and nothing else. */
  lemma CellsInRange(field: Grid, c: Cell)
    ensures InRange(c, |field|, Cols(field)) ==> c in Cells(field)
    ensures Distinct(Cells(field)) && forall d | d in Cells(field) :: InRange(d, |field|, Cols(field))
  {
    var rows, cols, cells := |field|, Cols(field), Cells(field);
    RectDistinct(0, rows, 0, cols);
    forall d | d in cells ensures InRange(d, rows, cols) {
      RectMembers(0, rows, 0, cols, d);
    }
    RectMembers(0, rows, 0, cols, c);
  }

  /** What the passes add to a pair of variables of one block: the consistency
      penalty of that block and nothing from the coupling pass. */
  lemma InBlockTotals(field: Grid, blocks: BlockMap, s: Settings, c: Cell, k: Key)
    requires WellFormed(blocks, |field|, Cols(field)) && InRange(c, |field|, Cols(field))
    requires k.0 in BlockAt(blocks, c) && k.1 in BlockAt(blocks, c)
    ensures Total(ConsistencyUpdates(blocks, s.edges, Cells(field)), k) == Total(BlockPenalty(s.edges, BlockAt(blocks, c)), k)
    ensures Total(CouplingUpdates(field, blocks, s, Cells(field)), k) == 0.0
  {
    var rows, cols, cells := |field|, Cols(field), Cells(field);
    CellsInRange(field, c);
    ConsistencyAt(blocks, rows, cols, s.edges, cells, c, k);
    CouplingInsideBlock(field, blocks, s, c, k);
  }

  /** Two variables of one block: the submitted QUBO holds `-200` on the pair
      exactly when the hardware couples them, and no entry otherwise. */
  lemma InBlockPair(n: nat, field: Grid, draws: Draws, prob: real, blocks: BlockMap, s: Settings, c: Cell, a: int, b: int)
    requires WellFormed(blocks, |field|, Cols(field)) && InRange(c, |field|, Cols(field))
    requires a in BlockAt(blocks, c) && b in BlockAt(blocks, c) && a != b && 0 <= a < n && 0 <= b < n
    ensures var q := Encoded(n, field, draws, prob, blocks, s);
      ((a, b) in q <==> Linked(s.edges, a, b)) && ((a, b) in q ==> q[(a, b)] == -200.0)
  {
    var k := (a, b);
    var w := Weight(n, field, draws, prob, blocks, s);
    WeightAt(n, field, draws, prob, blocks, s, k);
    InBlockTotals(field, blocks, s, c, k);
    assert Distinct(BlockAt(blocks, c));
    BlockPairWeight(s.edges, BlockAt(blocks, c), a, b);
    PinningOutside(field, draws, prob, blocks, Cells(field), k);
    IsolationAt(Used(field, blocks), n, k);
    assert w[k] == if Linked(s.edges, a, b) then -200.0 else 0.0;
  }

  /** The linear bias of a block variable: `+200` per coupled partner in its
      block, `-100` when its cell is pinned, `+100` when no coupling touched it. */
  lemma BlockBias(n: nat, field: Grid, draws: Draws, prob: real, blocks: BlockMap, s: Settings, c: Cell, a: int)
    requires WellFormed(blocks, |field|, Cols(field)) && InRange(c, |field|, Cols(field))
    requires a in BlockAt(blocks, c) && 0 <= a < n
    ensures var w := Weight(n, field, draws, prob, blocks, s);
      (a, a) in w && w[(a, a)] ==
        200.0 * (Partners(s.edges, a, BlockAt(blocks, c)) as real) +
        (if Pinned(field, draws, prob, c) then -100.0 else 0.0) +
        (if a in Used(field, blocks) then 0.0 else 100.0)
  {
    var k := (a, a);
    WeightAt(n, field, draws, prob, blocks, s, k);
    InBlockTotals(field, blocks, s, c, k);
    CellsInRange(field, c);
    BlockSelfWeight(s.edges, BlockAt(blocks, c), a);
    PinningAt(field, draws, prob, blocks, |field|, Cols(field), Cells(field), c, a);
    IsolationAt(Used(field, blocks), n, k);
  }

  /** A variable below `len(nodes)` that belongs to no cell is biased towards 0
      with weight `+100` and nothing else touches its bias. */
  lemma FreeVariable(n: nat, field: Grid, draws: Draws, prob: real, blocks: BlockMap, s: Settings, x: int)
    requires 0 <= x < n
    requires forall d | InRange(d, |field|, Cols(field)) :: x !in BlockAt(blocks, d)
    ensures var q := Encoded(n, field, draws, prob, blocks, s);
      (x, x) in q && q[(x, x)] == 100.0
  {
    WeightAt(n, field, draws, prob, blocks, s, (x, x));
    OutsideBlocks(field, draws, prob, blocks, s, (x, x));
    IsolationAt(Used(field, blocks), n, (x, x));
  }

  /** A dead cell writes no coupler of its own: no entry of the submitted
      QUBO has its first variable in the cell's block and its second outside
      it. (An alive neighbour may still write the reverse pair.) */
  lemma DeadCellWritesNoCoupler(n: nat, field: Grid, draws: Draws, prob: real, blocks: BlockMap, s: Settings,
                          c: Cell, a: int, b: int)
    requires Disjoint(blocks, |field|, Cols(field)) && InRange(c, |field|, Cols(field)) && !Alive(field, c.0, c.1)
    requires a in BlockAt(blocks, c) && b !in BlockAt(blocks, c)
    ensures (a, b) !in Encoded(n, field, draws, prob, blocks, s)
  {
    var rows, cols, cells := |field|, Cols(field), Cells(field);
    var k := (a, b);
    WeightAt(n, field, draws, prob, blocks, s, k);
    if 0 <= a < n && 0 <= b < n {
      forall u | u in ConsistencyUpdates(blocks, s.edges, cells) ensures u.key != k {
        ConsistencyKeys(blocks, s.edges, cells, u);
        if u.key == k {
          var d :| d in cells && a in BlockAt(blocks, d) && b in BlockAt(blocks, d);
          RectMembers(0, rows, 0, cols, d);
          if d != c {
            DisjointAt(blocks, rows, cols, c, d, a);
          }
        }
      }
      TotalAbsent(ConsistencyUpdates(blocks, s.edges, cells), k);
      PinningOutside(field, draws, prob, blocks, cells, k);
      forall u | u in CouplingUpdates(field, blocks, s, cells) ensures u.key != k {
        CouplingTouches(field, blocks, s, cells, u);
        if u.key == k {
          var d, o :| d in cells && o in Moore() &&
            Alive(field, d.0, d.1) && IsNeighbour(rows, cols, d, o) &&
            a in BlockAt(blocks, d) && b in BlockAt(blocks, Shift(d, o));
          RectMembers(0, rows, 0, cols, d);
          DisjointAt(blocks, rows, cols, c, d, a);
        }
      }
      TotalAbsent(CouplingUpdates(field, blocks, s, cells), k);
      IsolationAt(Used(field, blocks), n, k);
    }
  }
}
