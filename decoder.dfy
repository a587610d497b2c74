/** The read-out of `makeStepOne` (qgol.py:131-149): every variable of a cell's
    block votes with its value in the annealer's solution (0 for a zero vote,
    any other value for a one vote); the majority decides the new cell value,
    and a tie, including an empty block, is decided by a coin that comes up 1
    when its draw is below 0.5. */
module Decoder {
  import opened Traversal
  import opened Blocks
  import opened Field

  /** `zero_votes` and `one_votes`. */
  datatype Votes = Votes(zeros: nat, ones: nat)

  /** Every variable of every block indexes the solution. */
  ghost predicate Readable(result: seq<int>, blocks: BlockMap, rows: int, cols: int)
  {
    Covers(blocks, rows, cols) && IndicesBelow(blocks, rows, cols, |result|)
  }

  /** Every variable of `b` indexes the solution. */
  predicate Indexes(result: seq<int>, b: seq<int>)
  {
    forall t | 0 <= t < |b| :: 0 <= b[t] < |result|
  }

  lemma IndexesBlock(result: seq<int>, blocks: BlockMap, rows: int, cols: int, c: Cell)
    requires Readable(result, blocks, rows, cols) && InRange(c, rows, cols)
    ensures c in blocks && Indexes(result, blocks[c])
  {
    BlockBelow(blocks, rows, cols, |result|, c);
    forall t | 0 <= t < |blocks[c]| ensures 0 <= blocks[c][t] < |result| {
      assert blocks[c][t] in blocks[c];
    }
  }

  /** The votes of the variables `b`, counted in order. */
  function CountVotes(result: seq<int>, b: seq<int>): Votes
    requires Indexes(result, b)
  {
    if b == [] then Votes(0, 0)
    else
      var v := CountVotes(result, b[..|b| - 1]);
      if result[b[|b| - 1]] == 0 then Votes(v.zeros + 1, v.ones) else Votes(v.zeros, v.ones + 1)
  }

  /** The new value of a cell from its votes and its coin. */
  function Decide(v: Votes, coin: real): int
  {
    if v.zeros < v.ones then 1
    else if v.ones < v.zeros then 0
    else if coin < 0.5 then 1
    else 0
  }

  /** The new value of cell `c`. */
  function DecodeCell(result: seq<int>, blocks: BlockMap, coins: Draws, rows: int, cols: int, c: Cell): int
    requires Readable(result, blocks, rows, cols) && InRange(c, rows, cols)
  {
    IndexesBlock(result, blocks, rows, cols, c);
    Decide(CountVotes(result, blocks[c]), DrawAt(coins, c.0, c.1))
  }

  /** The new field. */
  function Decoded(result: seq<int>, blocks: BlockMap, coins: Draws, rows: nat, cols: nat): Grid
    requires Readable(result, blocks, rows, cols)
  {
    seq(rows, i requires 0 <= i < rows => DecodedRow(result, blocks, coins, rows, cols, i))
  }

  /** Row `i` of the new field. */
  function DecodedRow(result: seq<int>, blocks: BlockMap, coins: Draws, rows: nat, cols: nat, i: int): seq<int>
    requires Readable(result, blocks, rows, cols) && 0 <= i < rows
  {
    seq(cols, j requires 0 <= j < cols => DecodeCell(result, blocks, coins, rows, cols, (i, j)))
  }

  /** The loops of the read-out, filling a fresh `rows` x `cols` field. */
  method DecodeField(result: seq<int>, blocks: BlockMap, coins: Draws, rows: nat, cols: nat) returns (g: Grid)
    requires Readable(result, blocks, rows, cols)
    ensures g == Decoded(result, blocks, coins, rows, cols)
  {
    g := [];
    var i := 0;
    while i < rows
      invariant 0 <= i <= rows
      invariant g == Decoded(result, blocks, coins, rows, cols)[..i]
    {
      var row := DecodeRow(result, blocks, coins, rows, cols, i);
      g := g + [row];
      i := i + 1;
    }
  }

  /** The loop over the cells of row `i`. */
  method DecodeRow(result: seq<int>, blocks: BlockMap, coins: Draws, rows: nat, cols: nat, i: int)
    returns (row: seq<int>)
    requires Readable(result, blocks, rows, cols) && 0 <= i < rows
    ensures row == DecodedRow(result, blocks, coins, rows, cols, i)
  {
    row := [];
    var j := 0;
    while j < cols
      invariant 0 <= j <= cols
      invariant row == DecodedRow(result, blocks, coins, rows, cols, i)[..j]
    {
      IndexesBlock(result, blocks, rows, cols, (i, j));
      var zeros, ones := CountBlockVotes(result, blocks[(i, j)]);
      var cell: int;
      if zeros < ones {
        cell := 1;
      } else if ones < zeros {
        cell := 0;
      } else if DrawAt(coins, i, j) < 0.5 {
        cell := 1;
      } else {
        cell := 0;
      }
      assert cell == DecodeCell(result, blocks, coins, rows, cols, (i, j));
      row := row + [cell];
      j := j + 1;
    }
  }

  /** The inner loop over one block. */
  method CountBlockVotes(result: seq<int>, b: seq<int>) returns (zeros: nat, ones: nat)
    requires Indexes(result, b)
    ensures Votes(zeros, ones) == CountVotes(result, b)
  {
    zeros, ones := 0, 0;
    var t := 0;
    while t < |b|
      invariant 0 <= t <= |b|
      invariant Votes(zeros, ones) == CountVotes(result, b[..t])
    {
      assert b[..t + 1][..t] == b[..t];
      if result[b[t]] == 0 {
        zeros := zeros + 1;
      } else {
        ones := ones + 1;
      }
      t := t + 1;
    }
    assert b[..|b|] == b;
  }

  /** The number of variables of `b` that read 0. */
  function ZeroCount(result: seq<int>, b: seq<int>): nat
    requires Indexes(result, b)
  {
    |set t | 0 <= t < |b| && result[b[t]] == 0|
  }

  /** Every variable casts exactly one vote, and the zero votes are the
      variables that read 0. */
  lemma {:induction false} VotesCount(result: seq<int>, b: seq<int>)
    requires Indexes(result, b)
    ensures var v := CountVotes(result, b);
      v.zeros + v.ones == |b| && v.zeros == ZeroCount(result, b)
  {
    if b != [] {
      var init, last := b[..|b| - 1], |b| - 1;
      VotesCount(result, init);
      var zs := set t | 0 <= t < |init| && result[init[t]] == 0;
      var zs' := set t | 0 <= t < |b| && result[b[t]] == 0;
      assert ZeroCount(result, init) == |zs| && ZeroCount(result, b) == |zs'|;
      forall t ensures t in zs' <==> t in zs || (t == last && result[b[last]] == 0) {
        if 0 <= t < |init| {
          assert init[t] == b[t];
        }
      }
      if result[b[last]] == 0 {
        assert zs' == zs + {last} && last !in zs;
      } else {
        assert zs' == zs;
      }
    }
  }

  /** The value read by a strict majority of the block's variables wins, and
      only an exact tie consults the coin. */
  lemma MajorityWins(result: seq<int>, b: seq<int>, coin: real)
    requires Indexes(result, b)
    ensures 2 * ZeroCount(result, b) > |b| ==> Decide(CountVotes(result, b), coin) == 0
    ensures 2 * ZeroCount(result, b) < |b| ==> Decide(CountVotes(result, b), coin) == 1
    ensures 2 * ZeroCount(result, b) == |b| ==> Decide(CountVotes(result, b), coin) == if coin < 0.5 then 1 else 0
  {
    VotesCount(result, b);
  }

  /** A block whose variables all read the same value votes unanimously. */
  lemma {:induction false} UnanimousVotes(result: seq<int>, b: seq<int>)
    requires Indexes(result, b)
    ensures (forall t | 0 <= t < |b| :: result[b[t]] == 0) ==> CountVotes(result, b) == Votes(|b|, 0)
    ensures (forall t | 0 <= t < |b| :: result[b[t]] != 0) ==> CountVotes(result, b) == Votes(0, |b|)
  {
    if b != [] {
      UnanimousVotes(result, b[..|b| - 1]);
    }
  }

  /** A non-empty block whose variables all read 0 gives 0, and one whose
      variables all read something else gives 1, whatever the coin: the
      redundant encoding of a cell decodes to the value all its copies agree on. */
  lemma Unanimous(result: seq<int>, b: seq<int>, coin: real)
    requires Indexes(result, b) && b != []
    ensures (forall t | 0 <= t < |b| :: result[b[t]] == 0) ==> Decide(CountVotes(result, b), coin) == 0
    ensures (forall t | 0 <= t < |b| :: result[b[t]] != 0) ==> Decide(CountVotes(result, b), coin) == 1
  {
    UnanimousVotes(result, b);
  }

  /** The new field has the old field's shape and holds only 0 and 1. */
  lemma DecodedShape(result: seq<int>, blocks: BlockMap, coins: Draws, rows: nat, cols: nat)
    requires Readable(result, blocks, rows, cols)
    ensures var g := Decoded(result, blocks, coins, rows, cols);
      |g| == rows && IsRect(g) && (rows > 0 ==> Cols(g) == cols) && IsBinary(g)
  {
    var g := Decoded(result, blocks, coins, rows, cols);
    forall i, j | 0 <= i < |g| && 0 <= j < |g[i]| ensures g[i][j] == 0 || g[i][j] == 1 {
      IndexesBlock(result, blocks, rows, cols, (i, j));
    }
  }

  /** A cell with an empty block has no votes: the coin alone decides it. */
  lemma EmptyBlock(result: seq<int>, blocks: BlockMap, coins: Draws, rows: nat, cols: nat, c: Cell)
    requires Readable(result, blocks, rows, cols) && InRange(c, rows, cols) && blocks[c] == []
    ensures Decoded(result, blocks, coins, rows, cols)[c.0][c.1] == if DrawAt(coins, c.0, c.1) < 0.5 then 1 else 0
  {
  }
}
