/** The game loop `playQGOL` (qgol.py:185-214). The field has `width` rows and
    `height` columns, starts dead except for a 3 x 3 square of alive cells at
    rows and columns 7 to 9, and alternates one-steps and zero-steps. Every
    field the loop writes out is recorded as a snapshot, snapshot `t` being the
    file numbered `t`; the loop stops as soon as a checked field is entirely
    dead or entirely alive. */
module Game {
  import opened Traversal
  import opened Qubo
  import opened Blocks
  import opened Field
  import opened Coupling
  import opened Step
  import opened Encoder

  /** The parameters of `playQGOL` that reach the steps, and the hardware graph. */
  datatype Config = Config(nodes: set<int>, edges: set<Cell>, value1: real, value0: real,
                           prob1: real, prob0: real, overpopulation: bool)

  /** The start position: the 3 x 3 square at rows and columns 7 to 9 alive. */
  function Start(width: nat, height: nat): (g: Grid)
    requires width >= 10 && height >= 10
    ensures HasShape(g, width, height) && IsRect(g) && IsBinary(g)
    ensures forall i, j | 0 <= i < width && 0 <= j < height :: g[i][j] == 1 <==> 7 <= i < 10 && 7 <= j < 10
  {
    seq(width, i requires 0 <= i < width => seq(height, j => if 7 <= i < 10 && 7 <= j < 10 then 1 else 0))
  }

  /** `intializeField(height, width)` followed by the loops that set the square. */
  method StartField(width: nat, height: nat) returns (field: Grid)
    requires width >= 10 && height >= 10
    ensures field == Start(width, height)
  {
    field := InitializeField(height, width);
    var i := 0;
    while i < 3
      invariant 0 <= i <= 3
      invariant HasShape(field, width, height)
      invariant forall a, b | 0 <= a < width && 0 <= b < height ::
        field[a][b] == if 7 <= a < 7 + i && 7 <= b < 10 then 1 else 0
    {
      var j := 0;
      while j < 3
        invariant 0 <= j <= 3
        invariant HasShape(field, width, height)
        invariant forall a, b | 0 <= a < width && 0 <= b < height ::
          field[a][b] == if (7 <= a < 7 + i && 7 <= b < 10) || (a == 7 + i && 7 <= b < 7 + j) then 1 else 0
      {
        field := field[7 + i := field[7 + i][7 + j := 1]];
        j := j + 1;
      }
      i := i + 1;
    }
    var start := Start(width, height);
    forall a | 0 <= a < width ensures field[a] == start[a] {
      assert forall b | 0 <= b < height :: field[a][b] == start[a][b];
    }
  }

  /** The check after each written field. */
  predicate Halted(g: Grid)
  {
    CompleteOne(g) || CompleteZero(g)
  }

  /** The start field is neither entirely dead nor entirely alive, so the
      game always writes at least its first step. */
  lemma StartNotHalted(width: nat, height: nat)
    requires width >= 10 && height >= 10
    ensures !Halted(Start(width, height))
  {
    var g := Start(width, height);
    assert g[7][7] == 1 && g[0][0] == 0;
  }

  /** What the steps need of the setting: blocks for the whole field that
      index the QUBO, and for every step draws of the field's shape and an
      annealer sample with a value for every node. */
  ghost predicate Playable(cfg: Config, blocks: BlockMap, width: nat, height: nat, luck: seq<Luck>)
  {
    width >= 10 && height >= 10 &&
    Covers(blocks, width, height) && IndicesBelow(blocks, width, height, |cfg.nodes|) &&
    forall t | 0 <= t < |luck| :: HasShape(luck[t].pins, width, height) && |luck[t].sample| >= |cfg.nodes|
  }

  /** Snapshot `t + 1` from snapshot `t`: a one-step after an even snapshot, a
      zero-step after an odd one. */
  function Next(cfg: Config, blocks: BlockMap, width: nat, height: nat, luck: seq<Luck>, t: nat, g: Grid): (h: Grid)
    requires Playable(cfg, blocks, width, height, luck) && t < |luck|
    requires HasShape(g, width, height) && IsBinary(g)
    ensures HasShape(h, width, height) && IsBinary(h)
  {
    assert Ready(cfg.nodes, g, blocks, luck[t]);
    if t % 2 == 0 then
      var s := Settings(cfg.edges, cfg.value1, cfg.overpopulation, DefaultLimit);
      StepOneShape(cfg.nodes, g, blocks, s, cfg.prob1, luck[t]);
      StepOne(cfg.nodes, g, blocks, s, cfg.prob1, luck[t])
    else
      StepZeroSpec(cfg.nodes, g, blocks, cfg.edges, cfg.value0, cfg.overpopulation, cfg.prob0, luck[t]);
      StepZero(cfg.nodes, g, blocks, cfg.edges, cfg.value0, cfg.overpopulation, cfg.prob0, luck[t]).value
  }

  /** The QUBO the step after snapshot `t` submits: that of the field with
      `qubo_value1` and `prob_of_fixing1` after an even snapshot, and that of
      the inverted field with `qubo_value0` and `prob_of_fixing0` after an odd
      one, with the hardware couplers, the overpopulation switch of the game
      and the default overpopulation limit 3 in both. */
  function Submitted(cfg: Config, blocks: BlockMap, l: Luck, t: nat, g: Grid): Weights
  {
    if t % 2 == 0 then
      Encoded(|cfg.nodes|, g, l.pins, cfg.prob1, blocks, Settings(cfg.edges, cfg.value1, cfg.overpopulation, DefaultLimit))
    else
      Encoded(|cfg.nodes|, Flip(g), l.pins, cfg.prob0, blocks, Settings(cfg.edges, cfg.value0, cfg.overpopulation, DefaultLimit))
  }

  /** The couplers of a step's QUBO carry the weight of its half of the
      round: from the block of an alive cell after an even snapshot with
      `qubo_value1`, from the block of a dead cell after an odd one with
      `qubo_value0`, `+` or `-` that value (`+` without overpopulation
      modelling), and they are submitted exactly when it exceeds the pruning
      threshold in magnitude. */
  lemma SubmittedCoupler(cfg: Config, blocks: BlockMap, l: Luck, t: nat, g: Grid, c: Cell, o: Cell, a: int, b: int)
    requires IsRect(g) && IsBinary(g) && WellFormed(blocks, |g|, Cols(g))
    requires InRange(c, |g|, Cols(g)) && g[c.0][c.1] == (if t % 2 == 0 then 1 else 0)
    requires o in Moore() && IsNeighbour(|g|, Cols(g), c, o)
    requires a in BlockAt(blocks, c) && b in BlockAt(blocks, Shift(c, o)) && (a, b) in cfg.edges
    requires 0 <= a < |cfg.nodes| && 0 <= b < |cfg.nodes|
    ensures var q, v := Submitted(cfg, blocks, l, t, g), if t % 2 == 0 then cfg.value1 else cfg.value0;
      ((a, b) in q <==> Abs(v) > Epsilon) &&
      ((a, b) in q ==> (q[(a, b)] == v || q[(a, b)] == -v) && (!cfg.overpopulation ==> q[(a, b)] == v))
  {
    if t % 2 == 0 {
      var s := Settings(cfg.edges, cfg.value1, cfg.overpopulation, DefaultLimit);
      CouplerSubmitted(|cfg.nodes|, g, l.pins, cfg.prob1, blocks, s, c, o, a, b);
    } else {
      StepZeroCoupler(cfg.nodes, g, blocks, cfg.edges, cfg.value0, cfg.overpopulation, cfg.prob0, l, c, o, a, b);
    }
  }

  /** One step of the loop body: `makeStepOne` for even `t`, `makeStepZero`
      for odd `t`; returns the QUBO the step submits and the new field. */
  method Advance(cfg: Config, blocks: BlockMap, width: nat, height: nat, luck: seq<Luck>, t: nat, field: Grid)
    returns (submitted: Weights, g: Grid)
    requires Playable(cfg, blocks, width, height, luck) && t < |luck|
    requires HasShape(field, width, height) && IsBinary(field)
    ensures submitted == Submitted(cfg, blocks, luck[t], t, field)
    ensures g == Next(cfg, blocks, width, height, luck, t, field)
  {
    assert Ready(cfg.nodes, field, blocks, luck[t]);
    if t % 2 == 0 {
      var s := Settings(cfg.edges, cfg.value1, cfg.overpopulation, DefaultLimit);
      submitted, g := MakeStepOne(cfg.nodes, field, blocks, s, cfg.prob1, luck[t]);
    } else {
      var r;
      submitted, r := MakeStepZero(cfg.nodes, field, blocks, cfg.edges, cfg.value0, cfg.overpopulation, cfg.prob0, luck[t]);
      StepZeroSpec(cfg.nodes, field, blocks, cfg.edges, cfg.value0, cfg.overpopulation, cfg.prob0, luck[t]);
      g := r.value;
    }
  }

  /** A field of the game: `width` rows of `height` cells, each 0 or 1. */
  predicate Shaped(g: Grid, width: nat, height: nat)
  {
    HasShape(g, width, height) && IsBinary(g)
  }

  /** Snapshot `t` is the step of snapshot `t - 1`. */
  ghost predicate Follows(cfg: Config, blocks: BlockMap, width: nat, height: nat, luck: seq<Luck>,
                          shots: seq<Grid>, t: int)
    requires Playable(cfg, blocks, width, height, luck)
  {
    1 <= t < |shots| && t - 1 < |luck| && Shaped(shots[t - 1], width, height) &&
    shots[t] == Next(cfg, blocks, width, height, luck, t - 1, shots[t - 1])
  }

  /** The snapshots follow the rules: each is a field of the game, and each
      after the first is the step of the one before it. */
  ghost predicate Played(cfg: Config, blocks: BlockMap, width: nat, height: nat, luck: seq<Luck>, shots: seq<Grid>)
    requires Playable(cfg, blocks, width, height, luck)
  {
    (forall t | 0 <= t < |shots| :: Shaped(shots[t], width, height)) &&
    forall t | 1 <= t < |shots| :: Follows(cfg, blocks, width, height, luck, shots, t)
  }

  /** `qubos[t]` is the QUBO submitted by the step from snapshot `t` to
      snapshot `t + 1`: one QUBO per step taken. */
  predicate Submits(cfg: Config, blocks: BlockMap, luck: seq<Luck>, shots: seq<Grid>, qubos: seq<Weights>)
  {
    |qubos| + 1 == |shots| && |qubos| <= |luck| &&
    forall t | 0 <= t < |qubos| :: qubos[t] == Submitted(cfg, blocks, luck[t], t, shots[t])
  }

  /** Appending a step and its QUBO keeps the QUBOs matched to the snapshots. */
  lemma SubmitsExtend(cfg: Config, blocks: BlockMap, luck: seq<Luck>, shots: seq<Grid>, qubos: seq<Weights>, g: Grid, q: Weights)
    requires Submits(cfg, blocks, luck, shots, qubos) && |shots| - 1 < |luck|
    requires q == Submitted(cfg, blocks, luck[|shots| - 1], |shots| - 1, shots[|shots| - 1])
    ensures Submits(cfg, blocks, luck, shots + [g], qubos + [q])
  {
    var s, u := shots + [g], qubos + [q];
    forall t | 0 <= t < |u| ensures u[t] == Submitted(cfg, blocks, luck[t], t, s[t]) {
      assert s[t] == shots[t];
      if t < |qubos| {
        assert u[t] == qubos[t];
      }
    }
  }

  /** `playQGOL`: returns the snapshots it writes, in order. The first is the
      start field, each later one is the step of the one before it, the game
      stops at the first snapshot that is entirely dead or entirely alive, and
      it writes at most `2 * max_iterations + 1` of them, and at least two when
      it iterates at all. Alongside, it returns the QUBO each step submits. */
  method PlayQGOL(maxIterations: nat, cfg: Config, width: nat, height: nat, luck: seq<Luck>)
    returns (shots: seq<Grid>, qubos: seq<Weights>)
    requires |luck| >= 2 * maxIterations
    requires Playable(cfg, BuildBlockMap(cfg.nodes, width, height), width, height, luck)
    ensures 1 <= |shots| <= 2 * maxIterations + 1 && shots[0] == Start(width, height)
    ensures Played(cfg, BuildBlockMap(cfg.nodes, width, height), width, height, luck, shots)
    ensures Submits(cfg, BuildBlockMap(cfg.nodes, width, height), luck, shots, qubos)
    ensures forall t | 0 <= t < |shots| - 1 :: !Halted(shots[t])
    ensures |shots| < 2 * maxIterations + 1 ==> Halted(shots[|shots| - 1])
    ensures maxIterations > 0 ==> |shots| >= 2
  {
    var blocks := FieldToBlock(cfg.nodes, width, height);
    shots, qubos := Play(maxIterations, cfg, blocks, width, height, luck);
  }

  /** What a game of at most `max_iterations` rounds writes and submits:
      between 1 and `2 * max_iterations + 1` snapshots, at least two when it
      iterates at all; the first is the start field and each later one is the
      step of the one before it; one QUBO per step taken; no snapshot before
      the last is complete, and a game that stops early stops at a complete
      one. */
  ghost predicate WholeGame(maxIterations: nat, cfg: Config, blocks: BlockMap, width: nat, height: nat, luck: seq<Luck>,
                            shots: seq<Grid>, qubos: seq<Weights>)
    requires Playable(cfg, blocks, width, height, luck)
  {
    1 <= |shots| <= 2 * maxIterations + 1 && shots[0] == Start(width, height) &&
    Played(cfg, blocks, width, height, luck, shots) &&
    Submits(cfg, blocks, luck, shots, qubos) &&
    (forall t | 0 <= t < |shots| - 1 :: !Halted(shots[t])) &&
    (|shots| < 2 * maxIterations + 1 ==> Halted(shots[|shots| - 1])) &&
    (maxIterations > 0 ==> |shots| >= 2)
  }

  /** The game loop of `playQGOL` for the block map `blocks`. */
  method Play(maxIterations: nat, cfg: Config, blocks: BlockMap, width: nat, height: nat, luck: seq<Luck>)
    returns (shots: seq<Grid>, qubos: seq<Weights>)
    requires |luck| >= 2 * maxIterations
    requires Playable(cfg, blocks, width, height, luck)
    ensures WholeGame(maxIterations, cfg, blocks, width, height, luck, shots, qubos)
  {
    var field := StartField(width, height);
    StartNotHalted(width, height);
    shots, qubos := [], [];
    var iteration := 0;
    while iteration < maxIterations
      invariant 0 <= iteration <= maxIterations
      invariant |shots| == 2 * iteration
      invariant Going(cfg, blocks, width, height, luck, shots, qubos, field)
    {
      var halted;
      shots, qubos, field, halted := Round(cfg, blocks, width, height, luck, shots, qubos, field);
      if halted {
        StoppedEarly(maxIterations, cfg, blocks, width, height, luck, shots, qubos);
        return;
      }
      iteration := iteration + 1;
    }
    var halted;
    shots, halted := Record(shots, field);
    RanOut(maxIterations, cfg, blocks, width, height, luck, shots, qubos);
  }

  /** A game that stops at a complete snapshot within `2 * max_iterations`
      snapshots is a whole game; it has at least two, the start not being
      complete. */
  lemma StoppedEarly(maxIterations: nat, cfg: Config, blocks: BlockMap, width: nat, height: nat, luck: seq<Luck>,
                     shots: seq<Grid>, qubos: seq<Weights>)
    requires Playable(cfg, blocks, width, height, luck)
    requires 1 <= |shots| <= 2 * maxIterations && shots[0] == Start(width, height)
    requires Played(cfg, blocks, width, height, luck, shots) && Submits(cfg, blocks, luck, shots, qubos)
    requires forall t | 0 <= t < |shots| - 1 :: !Halted(shots[t])
    requires Halted(shots[|shots| - 1])
    ensures WholeGame(maxIterations, cfg, blocks, width, height, luck, shots, qubos)
  {
    StartNotHalted(width, height);
  }

  /** A game that writes `2 * max_iterations + 1` snapshots is a whole game. */
  lemma RanOut(maxIterations: nat, cfg: Config, blocks: BlockMap, width: nat, height: nat, luck: seq<Luck>,
               shots: seq<Grid>, qubos: seq<Weights>)
    requires Playable(cfg, blocks, width, height, luck)
    requires |shots| == 2 * maxIterations + 1 && shots[0] == Start(width, height)
    requires Played(cfg, blocks, width, height, luck, shots) && Submits(cfg, blocks, luck, shots, qubos)
    requires forall t | 0 <= t < |shots| - 1 :: !Halted(shots[t])
    ensures WholeGame(maxIterations, cfg, blocks, width, height, luck, shots, qubos)
  {
  }

  /** The state of the loop between two writes: `shots` written so far, none
      of them complete, and `field` the next field to write, which extends
      them by the rules and with one QUBO per step taken. */
  ghost predicate Going(cfg: Config, blocks: BlockMap, width: nat, height: nat, luck: seq<Luck>,
                        shots: seq<Grid>, qubos: seq<Weights>, field: Grid)
    requires Playable(cfg, blocks, width, height, luck)
  {
    (shots + [field])[0] == Start(width, height) &&
    Played(cfg, blocks, width, height, luck, shots + [field]) &&
    Submits(cfg, blocks, luck, shots + [field], qubos) &&
    forall t | 0 <= t < |shots| :: !Halted(shots[t])
  }

  /** One iteration of the loop: a one-step and a zero-step, each preceded by
      writing out and checking the field. */
  method Round(cfg: Config, blocks: BlockMap, width: nat, height: nat, luck: seq<Luck>,
               shots0: seq<Grid>, qubos0: seq<Weights>, field0: Grid)
    returns (shots: seq<Grid>, qubos: seq<Weights>, field: Grid, halted: bool)
    requires Playable(cfg, blocks, width, height, luck) && |shots0| + 2 <= |luck|
    requires Going(cfg, blocks, width, height, luck, shots0, qubos0, field0)
    ensures |shots0| < |shots| <= |shots0| + 2 && shots[0] == Start(width, height)
    ensures Played(cfg, blocks, width, height, luck, shots)
    ensures forall t | 0 <= t < |shots| - 1 :: !Halted(shots[t])
    ensures halted ==> Halted(shots[|shots| - 1]) && Submits(cfg, blocks, luck, shots, qubos)
    ensures !halted ==> |shots| == |shots0| + 2 && Going(cfg, blocks, width, height, luck, shots, qubos, field)
  {
    shots, qubos, field, halted := Turn(cfg, blocks, width, height, luck, shots0, qubos0, field0);
    if !halted {
      shots, qubos, field, halted := Turn(cfg, blocks, width, height, luck, shots, qubos, field);
    }
  }

  /** Writes out the field of snapshot `|shots0|` and, unless the game is over,
      computes the next one. */
  method Turn(cfg: Config, blocks: BlockMap, width: nat, height: nat, luck: seq<Luck>,
              shots0: seq<Grid>, qubos0: seq<Weights>, field0: Grid)
    returns (shots: seq<Grid>, qubos: seq<Weights>, field: Grid, halted: bool)
    requires Playable(cfg, blocks, width, height, luck) && |shots0| < |luck|
    requires (shots0 + [field0])[0] == Start(width, height)
    requires Played(cfg, blocks, width, height, luck, shots0 + [field0])
    requires Submits(cfg, blocks, luck, shots0 + [field0], qubos0)
    requires forall t | 0 <= t < |shots0| :: !Halted(shots0[t])
    ensures shots == shots0 + [field0] && shots[0] == Start(width, height)
    ensures Played(cfg, blocks, width, height, luck, shots)
    ensures halted == Halted(shots[|shots| - 1])
    ensures forall t | 0 <= t < |shots| - 1 :: !Halted(shots[t])
    ensures !halted ==> forall t | 0 <= t < |shots| :: !Halted(shots[t])
    ensures !halted ==> (shots + [field])[0] == Start(width, height)
    ensures !halted ==> Played(cfg, blocks, width, height, luck, shots + [field])
    ensures halted ==> qubos == qubos0
    ensures !halted ==> Submits(cfg, blocks, luck, shots + [field], qubos)
  {
    shots, halted := Record(shots0, field0);
    field, qubos := field0, qubos0;
    if !halted {
      var q;
      q, field := Extend(cfg, blocks, width, height, luck, shots);
      SubmitsExtend(cfg, blocks, luck, shots, qubos0, field, q);
      qubos := qubos0 + [q];
    }
  }

  /** Computes the step of the last snapshot, and the QUBO it submits. */
  method Extend(cfg: Config, blocks: BlockMap, width: nat, height: nat, luck: seq<Luck>, shots: seq<Grid>)
    returns (submitted: Weights, field: Grid)
    requires Playable(cfg, blocks, width, height, luck) && shots != [] && |shots| - 1 < |luck|
    requires Played(cfg, blocks, width, height, luck, shots)
    ensures submitted == Submitted(cfg, blocks, luck[|shots| - 1], |shots| - 1, shots[|shots| - 1])
    ensures field == Next(cfg, blocks, width, height, luck, |shots| - 1, shots[|shots| - 1])
    ensures Played(cfg, blocks, width, height, luck, shots + [field]) && (shots + [field])[0] == shots[0]
  {
    submitted, field := Advance(cfg, blocks, width, height, luck, |shots| - 1, shots[|shots| - 1]);
    PlayedExtend(cfg, blocks, width, height, luck, shots, field);
  }

  /** Appending the step of the last snapshot keeps the snapshots played. */
  lemma PlayedExtend(cfg: Config, blocks: BlockMap, width: nat, height: nat, luck: seq<Luck>,
                     shots: seq<Grid>, g: Grid)
    requires Playable(cfg, blocks, width, height, luck)
    requires Played(cfg, blocks, width, height, luck, shots) && shots != [] && |shots| - 1 < |luck|
    requires g == Next(cfg, blocks, width, height, luck, |shots| - 1, shots[|shots| - 1])
    ensures Played(cfg, blocks, width, height, luck, shots + [g]) && (shots + [g])[0] == shots[0]
  {
    var s := shots + [g];
    forall t | 0 <= t < |s| ensures Shaped(s[t], width, height) {
      if t < |shots| {
        assert s[t] == shots[t];
      }
    }
    forall t | 1 <= t < |s| ensures Follows(cfg, blocks, width, height, luck, s, t) {
      assert s[t - 1] == shots[t - 1];
      if t < |shots| {
        assert s[t] == shots[t];
        assert Follows(cfg, blocks, width, height, luck, shots, t);
      }
    }
  }

  /** Writes out a field and checks whether the game is over. */
  method Record(shots0: seq<Grid>, field: Grid) returns (shots: seq<Grid>, halted: bool)
    requires forall t | 0 <= t < |shots0| :: !Halted(shots0[t])
    ensures shots == shots0 + [field] && halted == Halted(field)
    ensures forall t | 0 <= t < |shots| - 1 :: !Halted(shots[t])
    ensures !halted ==> forall t | 0 <= t < |shots| :: !Halted(shots[t])
  {
    shots := shots0 + [field];
    var one := CheckIfFieldCompleteOne(field);
    var zero := CheckIfFieldCompleteZero(field);
    halted := one || zero;
    assert forall t | 0 <= t < |shots0| :: shots[t] == shots0[t];
  }

  /** The snapshots are determined by the start field and the draws: two
      played sequences with the same first field agree wherever both are
      defined. */
  lemma {:induction false} PlayedDeterministic(cfg: Config, blocks: BlockMap, width: nat, height: nat, luck: seq<Luck>,
                                               a: seq<Grid>, b: seq<Grid>, t: nat)
    requires Playable(cfg, blocks, width, height, luck)
    requires Played(cfg, blocks, width, height, luck, a) && Played(cfg, blocks, width, height, luck, b)
    requires t < |a| && t < |b| && a[0] == b[0]
    ensures a[t] == b[t]
  {
    if t > 0 {
      PlayedDeterministic(cfg, blocks, width, height, luck, a, b, t - 1);
      assert Follows(cfg, blocks, width, height, luck, a, t);
      assert Follows(cfg, blocks, width, height, luck, b, t);
    }
  }
}
