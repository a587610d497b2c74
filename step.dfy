/** One generation of the game (qgol.py:63-161). `makeStepOne` builds the QUBO
    of the field, submits it to the annealer and reads the new field out of the
    best solution; `makeStepZero` runs `makeStepOne` on the inverted field and
    inverts the outcome, so that the roles of dead and alive cells swap. */
module Step {
  import opened Traversal
  import opened Qubo
  import opened Blocks
  import opened Field
  import opened Coupling
  import opened Encoder
  import opened Decoder

  /** What one step draws from outside: the pinning draws and the tie-breaking
      coins, one per cell, and the first sample the annealer returns for the
      submitted QUBO, the value of every hardware variable by index. */
  datatype Luck = Luck(pins: Draws, coins: Draws, sample: seq<int>)

  /** `overpopulation_amnt` as `makeStepZero` leaves it. */
  const DefaultLimit: int := 3

  /** What one step needs of its inputs: a rectangular field with a draw per
      cell, a block for every cell, block variables that index the QUBO, and a
      sample with a value for every variable. */
  ghost predicate Ready(nodes: set<int>, field: Grid, blocks: BlockMap, luck: Luck)
  {
    IsRect(field) && SameShape(luck.pins, field) &&
    Covers(blocks, |field|, Cols(field)) && IndicesBelow(blocks, |field|, Cols(field), |nodes|) &&
    |luck.sample| >= |nodes|
  }

  lemma ReadableResult(nodes: set<int>, field: Grid, blocks: BlockMap, luck: Luck)
    requires Ready(nodes, field, blocks, luck)
    ensures Readable(luck.sample, blocks, |field|, Cols(field))
  {
  }

  /** The field after `makeStepOne`. */
  function StepOne(nodes: set<int>, field: Grid, blocks: BlockMap, s: Settings, prob: real, luck: Luck): Grid
    requires Ready(nodes, field, blocks, luck)
  {
    ReadableResult(nodes, field, blocks, luck);
    Decoded(luck.sample, blocks, luck.coins, |field|, Cols(field))
  }

  /** `makeStepOne`: returns the submitted QUBO and the new field. */
  method MakeStepOne(nodes: set<int>, field: Grid, blocks: BlockMap, s: Settings, prob: real, luck: Luck)
    returns (submitted: Weights, newField: Grid)
    requires Ready(nodes, field, blocks, luck)
    ensures submitted == Encoded(|nodes|, field, luck.pins, prob, blocks, s)
    ensures newField == StepOne(nodes, field, blocks, s, prob, luck)
  {
    submitted := EncodeQubo(nodes, field, luck.pins, prob, blocks, s);
    ReadableResult(nodes, field, blocks, luck);
    newField := DecodeField(luck.sample, blocks, luck.coins, |field|, Cols(field));
  }

  /** The new field has the shape of the old one and holds only 0 and 1,
      whatever the old field held. */
  lemma StepOneShape(nodes: set<int>, field: Grid, blocks: BlockMap, s: Settings, prob: real, luck: Luck)
    requires Ready(nodes, field, blocks, luck)
    ensures var g := StepOne(nodes, field, blocks, s, prob, luck);
      |g| == |field| && Cols(g) == Cols(field) && IsRect(g) && SameShape(g, field) && IsBinary(g)
  {
    ReadableResult(nodes, field, blocks, luck);
    DecodedShape(luck.sample, blocks, luck.coins, |field|, Cols(field));
  }

  /** The outcome of `makeStepZero`: the error of the first inversion for a
      field holding something other than 0 and 1, and otherwise the inverse of
      the one-step of the inverse. */
  function StepZero(nodes: set<int>, field: Grid, blocks: BlockMap, edges: set<Cell>, value: real, overpopulation: bool,
                    prob: real, luck: Luck): Result<Grid>
    requires Ready(nodes, field, blocks, luck)
  {
    if IsBinary(field) then
      Ok(Flip(StepOne(nodes, Flip(field), blocks, Settings(edges, value, overpopulation, DefaultLimit), prob, luck)))
    else Err(InvalidFieldValue)
  }

  /** `makeStepZero`: returns the QUBO it submits and the outcome. The QUBO
      is that of the inverted field under the zero-step settings; a field that
      fails inversion submits nothing, which the empty dictionary stands for. */
  method MakeStepZero(nodes: set<int>, field: Grid, blocks: BlockMap, edges: set<Cell>, value: real, overpopulation: bool,
                      prob: real, luck: Luck)
    returns (submitted: Weights, r: Result<Grid>)
    requires Ready(nodes, field, blocks, luck)
    ensures r == StepZero(nodes, field, blocks, edges, value, overpopulation, prob, luck)
    ensures IsBinary(field) ==>
      submitted == Encoded(|nodes|, Flip(field), luck.pins, prob, blocks, Settings(edges, value, overpopulation, DefaultLimit))
    ensures !IsBinary(field) ==> submitted == map[]
  {
    submitted := map[];
    var inverted := InvertField(field);
    if inverted.Err? {
      return submitted, inverted;
    }
    var s := Settings(edges, value, overpopulation, DefaultLimit);
    var g;
    submitted, g := MakeStepOne(nodes, inverted.value, blocks, s, prob, luck);
    StepOneShape(nodes, inverted.value, blocks, s, prob, luck);
    r := InvertField(g);
  }

  /** In the zero step the roles swap: a coupler from the block of a DEAD
      cell to the block of one of its neighbours carries `+qubo_value` or
      `-qubo_value` (`+qubo_value` without overpopulation modelling), and is
      submitted exactly when `qubo_value` exceeds the pruning threshold. */
  lemma StepZeroCoupler(nodes: set<int>, field: Grid, blocks: BlockMap, edges: set<Cell>, value: real, overpopulation: bool,
                        prob: real, luck: Luck, c: Cell, o: Cell, a: int, b: int)
    requires IsRect(field) && IsBinary(field) && WellFormed(blocks, |field|, Cols(field))
    requires InRange(c, |field|, Cols(field)) && field[c.0][c.1] == 0
    requires o in Moore() && IsNeighbour(|field|, Cols(field), c, o)
    requires a in BlockAt(blocks, c) && b in BlockAt(blocks, Shift(c, o)) && (a, b) in edges
    requires 0 <= a < |nodes| && 0 <= b < |nodes|
    ensures var q := Encoded(|nodes|, Flip(field), luck.pins, prob, blocks, Settings(edges, value, overpopulation, DefaultLimit));
      ((a, b) in q <==> Abs(value) > Epsilon) &&
      ((a, b) in q ==> (q[(a, b)] == value || q[(a, b)] == -value) && (!overpopulation ==> q[(a, b)] == value))
  {
    var g := Flip(field);
    assert g[c.0][c.1] == 1;
    CouplerSubmitted(|nodes|, g, luck.pins, prob, blocks, Settings(edges, value, overpopulation, DefaultLimit), c, o, a, b);
  }

  /** On a valid field the zero step succeeds, keeps the shape, yields a valid
      field, and is the one step conjugated by inversion: inverting its outcome
      gives the one step of the inverted field. */
  lemma StepZeroSpec(nodes: set<int>, field: Grid, blocks: BlockMap, edges: set<Cell>, value: real, overpopulation: bool,
                     prob: real, luck: Luck)
    requires Ready(nodes, field, blocks, luck) && IsBinary(field)
    ensures var r := StepZero(nodes, field, blocks, edges, value, overpopulation, prob, luck);
      r.Ok? && |r.value| == |field| && Cols(r.value) == Cols(field) && IsRect(r.value) && IsBinary(r.value) &&
      Flip(r.value) == StepOne(nodes, Flip(field), blocks, Settings(edges, value, overpopulation, DefaultLimit), prob, luck)
  {
    var s := Settings(edges, value, overpopulation, DefaultLimit);
    var g := StepOne(nodes, Flip(field), blocks, s, prob, luck);
    StepOneShape(nodes, Flip(field), blocks, s, prob, luck);
    InvertTwice(g);
    InvertTwice(Flip(g));
  }
}
