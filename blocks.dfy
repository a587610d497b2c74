/** The block map of `playQGOL` (qgol.py:191-195): every cell of the field is
    represented redundantly by a block of up to eight hardware variables. Cell
    `(i, j)` has number `n = i * height + j`, its candidate variables are
    `8n .. 8n + 7`, and its block keeps those candidates that are hardware nodes,
    in ascending order. */
module Blocks {
  import opened Traversal

  const BlockSize: nat := 8

  type BlockMap = map<Cell, seq<int>>

  /** The candidates `lo, lo + 1, ..., lo + count - 1` that are in `nodes`, in
      ascending order (the filter of the list comprehension). */
  function Present(nodes: set<int>, lo: int, count: nat): seq<int>
  {
    if count == 0 then []
    else Present(nodes, lo, count - 1) + (if lo + count - 1 in nodes then [lo + count - 1] else [])
  }

  /** The number `i * height + j` of cell `(i, j)`. */
  function CellNumber(height: int, i: int, j: int): int
  {
    i * height + j
  }

  /** The block of cell `(i, j)`. */
  function BlockFor(nodes: set<int>, height: int, i: int, j: int): seq<int>
  {
    Present(nodes, CellNumber(height, i, j) * BlockSize, BlockSize)
  }

  /** `field_to_block` for a field of `width` rows and `height` columns. */
  function BuildBlockMap(nodes: set<int>, width: nat, height: nat): (m: BlockMap)
    ensures forall i, j :: (i, j) in m <==> 0 <= i < width && 0 <= j < height
  {
    map i, j | 0 <= i < width && 0 <= j < height :: (i, j) := BlockFor(nodes, height, i, j)
  }

  /** The block of a cell; a cell the map does not hold has none. */
  function BlockAt(blocks: BlockMap, c: Cell): seq<int>
  {
    if c in blocks then blocks[c] else []
  }

  predicate InRange(c: Cell, rows: int, cols: int)
  {
    0 <= c.0 < rows && 0 <= c.1 < cols
  }

  predicate StrictlyAscending(s: seq<int>)
  {
    forall a, b | 0 <= a < b < |s| :: s[a] < s[b]
  }

  /** Every cell of a `rows` x `cols` field has a block. */
  predicate Covers(blocks: BlockMap, rows: int, cols: int)
  {
    forall i, j | 0 <= i < rows && 0 <= j < cols :: (i, j) in blocks
  }

  /** No hardware variable belongs to the blocks of two different cells. */
  ghost predicate Disjoint(blocks: BlockMap, rows: int, cols: int)
  {
    forall c, d, x | InRange(c, rows, cols) && InRange(d, rows, cols) && c != d && x in BlockAt(blocks, c) ::
      x !in BlockAt(blocks, d)
  }

  /** No block lists a variable twice. */
  ghost predicate BlocksDistinct(blocks: BlockMap, rows: int, cols: int)
  {
    forall c | InRange(c, rows, cols) :: Distinct(BlockAt(blocks, c))
  }

  /** The shape the encoder relies on: a block for every cell, blocks that do
      not repeat or share variables. */
  ghost predicate WellFormed(blocks: BlockMap, rows: int, cols: int)
  {
    Covers(blocks, rows, cols) && Disjoint(blocks, rows, cols) && BlocksDistinct(blocks, rows, cols)
  }

  /** Every block variable indexes the QUBO built over `n` variables. */
  ghost predicate IndicesBelow(blocks: BlockMap, rows: int, cols: int, n: int)
  {
    forall c, x | InRange(c, rows, cols) && x in BlockAt(blocks, c) :: 0 <= x < n
  }

  lemma {:induction false} PresentSpec(nodes: set<int>, lo: int, count: nat)
    ensures StrictlyAscending(Present(nodes, lo, count))
    ensures |Present(nodes, lo, count)| <= count
    ensures forall x :: x in Present(nodes, lo, count) <==> lo <= x < lo + count && x in nodes
  {
    if count > 0 {
      var s := Present(nodes, lo, count - 1);
      PresentSpec(nodes, lo, count - 1);
      var t := Present(nodes, lo, count);
      forall a, b | 0 <= a < b < |t| ensures t[a] < t[b] {
        if b == |s| {
          assert s[a] in s;
        }
      }
    }
  }

  /** A block holds at most eight variables, strictly ascending, and exactly
      the candidates `8n .. 8n + 7` that are hardware nodes. */
  lemma BlockForSpec(nodes: set<int>, height: int, i: int, j: int)
    ensures var b := BlockFor(nodes, height, i, j);
      var n := CellNumber(height, i, j);
      |b| <= BlockSize && StrictlyAscending(b) && Distinct(b) &&
      forall x :: x in b <==> n * 8 <= x < n * 8 + 8 && x in nodes
  {
    PresentSpec(nodes, CellNumber(height, i, j) * BlockSize, BlockSize);
  }

  lemma {:induction false} MulAtLeast(d: int, h: int)
    requires d >= 1 && h >= 0
    ensures d * h >= h
    decreases d
  {
    if d > 1 {
      MulAtLeast(d - 1, h);
      assert d * h == (d - 1) * h + h;
    }
  }

  /** Row-major numbering is strictly increasing from one row to the next. */
  lemma RowMajorLess(height: int, i: int, j: int, k: int, l: int)
    requires 0 <= j < height && 0 <= l && i < k
    ensures CellNumber(height, i, j) < CellNumber(height, k, l)
  {
    var d := k - i;
    assert k * height == i * height + d * height;
    MulAtLeast(d, height);
  }

  /** Cell numbers are distinct within the field. */
  lemma CellNumberInjective(height: int, i: int, j: int, k: int, l: int)
    requires 0 <= j < height && 0 <= l < height
    ensures CellNumber(height, i, j) == CellNumber(height, k, l) ==> i == k && j == l
  {
    if i < k {
      RowMajorLess(height, i, j, k, l);
    } else if k < i {
      RowMajorLess(height, k, l, i, j);
    }
  }

  lemma CellNumberBelow(width: int, height: int, i: int, j: int)
    requires 0 <= i < width && 0 <= j < height
    ensures 0 <= CellNumber(height, i, j) < width * height
  {
    assert i * height <= (width - 1) * height;
    assert (width - 1) * height + height == width * height;
  }

  /** The block map covers the field, lists no variable twice, and gives
      distinct cells disjoint blocks. */
  lemma {:induction false} BuildBlockMapWellFormed(nodes: set<int>, width: nat, height: nat)
    ensures WellFormed(BuildBlockMap(nodes, width, height), width, height)
  {
    var m := BuildBlockMap(nodes, width, height);
    forall c | InRange(c, width, height) ensures Distinct(BlockAt(m, c)) {
      BlockForSpec(nodes, height, c.0, c.1);
    }
    forall c, d, x | InRange(c, width, height) && InRange(d, width, height) && c != d && x in BlockAt(m, c)
      ensures x !in BlockAt(m, d)
    {
      BlockForSpec(nodes, height, c.0, c.1);
      BlockForSpec(nodes, height, d.0, d.1);
      var n, n' := CellNumber(height, c.0, c.1), CellNumber(height, d.0, d.1);
      CellNumberInjective(height, c.0, c.1, d.0, d.1);
      assert x in BlockAt(m, d) ==> n == n';
    }
  }

  /** The variables of the block map lie below `8 * width * height`; a hardware
      graph with at least that many nodes therefore never makes the encoder
      look up a weight it did not initialise. */
  lemma BuildBlockMapBelow(nodes: set<int>, width: nat, height: nat)
    ensures IndicesBelow(BuildBlockMap(nodes, width, height), width, height, BlockSize * width * height)
  {
    var m := BuildBlockMap(nodes, width, height);
    var cells := width * height;
    assert BlockSize * width * height == 8 * cells;
    forall c, x | InRange(c, width, height) && x in BlockAt(m, c)
      ensures 0 <= x < 8 * cells
    {
      BlockForSpec(nodes, height, c.0, c.1);
      CellNumberBelow(width, height, c.0, c.1);
    }
  }

  lemma BlockBelow(blocks: BlockMap, rows: int, cols: int, n: int, c: Cell)
    requires Covers(blocks, rows, cols) && IndicesBelow(blocks, rows, cols, n) && InRange(c, rows, cols)
    ensures c in blocks && forall x | x in blocks[c] :: 0 <= x < n
  {
    forall x | x in blocks[c] ensures 0 <= x < n {
      assert x in BlockAt(blocks, c);
    }
  }

  lemma DisjointAt(blocks: BlockMap, rows: int, cols: int, c: Cell, d: Cell, x: int)
    requires Disjoint(blocks, rows, cols) && InRange(c, rows, cols) && InRange(d, rows, cols)
    requires c != d && x in BlockAt(blocks, c)
    ensures x !in BlockAt(blocks, d)
  {
  }

  /** Every block variable is a hardware node, so a graph whose node labels
      are exactly `0 .. len(nodes) - 1` gives blocks that index its QUBO. */
  lemma BuildBlockMapInNodes(nodes: set<int>, width: nat, height: nat)
    ensures forall c, x | InRange(c, width, height) && x in BlockAt(BuildBlockMap(nodes, width, height), c) :: x in nodes
    ensures (forall x | x in nodes :: 0 <= x < |nodes|) ==>
      IndicesBelow(BuildBlockMap(nodes, width, height), width, height, |nodes|)
  {
    var m := BuildBlockMap(nodes, width, height);
    forall c, x | InRange(c, width, height) && x in BlockAt(m, c) ensures x in nodes {
      PresentSpec(nodes, CellNumber(height, c.0, c.1) * BlockSize, BlockSize);
    }
    if forall x | x in nodes :: 0 <= x < |nodes| {
      forall c, x | InRange(c, width, height) && x in BlockAt(m, c) ensures 0 <= x < |nodes| {
        assert x in nodes;
      }
    }
  }

  /** The cells of rows `0 .. i - 1` and the first `j` cells of row `i`. */
  predicate Filled(c: Cell, height: int, i: int, j: int)
  {
    0 <= c.1 < height && (0 <= c.0 < i || (c.0 == i && c.1 < j))
  }

  /** The loops of `playQGOL` that fill `field_to_block`, one row at a time. */
  method FieldToBlock(nodes: set<int>, width: nat, height: nat) returns (m: BlockMap)
    ensures m == BuildBlockMap(nodes, width, height)
  {
    m := map[];
    var i := 0;
    while i < width
      invariant 0 <= i <= width
      invariant forall c :: c in m <==> Filled(c, height, i, 0)
      invariant forall c | c in m :: m[c] == BlockFor(nodes, height, c.0, c.1)
    {
      m := FillRow(nodes, height, m, i);
      i := i + 1;
    }
    var b := BuildBlockMap(nodes, width, height);
    forall c ensures c in m <==> c in b {
      assert c == (c.0, c.1);
    }
    forall c | c in m ensures m[c] == b[c] {
      assert c == (c.0, c.1);
    }
  }

  /** The inner loop over the cells of row `i`. */
  method FillRow(nodes: set<int>, height: nat, m0: BlockMap, i: nat) returns (m: BlockMap)
    requires forall c :: c in m0 <==> Filled(c, height, i, 0)
    requires forall c | c in m0 :: m0[c] == BlockFor(nodes, height, c.0, c.1)
    ensures forall c :: c in m <==> Filled(c, height, i + 1, 0)
    ensures forall c | c in m :: m[c] == BlockFor(nodes, height, c.0, c.1)
  {
    m := m0;
    var j := 0;
    while j < height
      invariant 0 <= j <= height
      invariant forall c :: c in m <==> Filled(c, height, i, j)
      invariant forall c | c in m :: m[c] == BlockFor(nodes, height, c.0, c.1)
    {
      m := m[(i, j) := BlockFor(nodes, height, i, j)];
      j := j + 1;
    }
  }
}
