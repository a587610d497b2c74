/** Iteration orders of the nested `for` loops of qgol.py, written as sequences.

    A loop `for a in range(rlo, rhi): for b in range(clo, chi): ...` visits the
    cells of `Rect(rlo, rhi, clo, chi)` in order; a loop `for x in xs: for y in ys`
    visits the pairs of `Product(xs, ys)` in order. Every specification function
    of the model folds over one of these sequences, and every loop invariant says
    which prefix of it has been processed. */
module Traversal {

  /** A grid cell `(row, column)`, a Moore offset `(k_1, k_2)`, or a pair of
      hardware variable indices `(q_1, q_2)`. */
  type Cell = (int, int)

  /** The cells `(r, lo), (r, lo + 1), ..., (r, hi - 1)` of one row. */
  function Span(r: int, lo: int, hi: int): seq<Cell>
    decreases hi - lo
  {
    if hi <= lo then [] else Span(r, lo, hi - 1) + [(r, hi - 1)]
  }

  /** The cells `rlo <= a < rhi`, `clo <= b < chi` in row-major order. */
  function Rect(rlo: int, rhi: int, clo: int, chi: int): seq<Cell>
    decreases rhi - rlo
  {
    if rhi <= rlo then [] else Rect(rlo, rhi - 1, clo, chi) + Span(rhi - 1, clo, chi)
  }

  /** The pairs `(x, y)` for `y` in `ys`, in order. */
  function Pairs(x: int, ys: seq<int>): seq<Cell>
  {
    if ys == [] then [] else Pairs(x, ys[..|ys| - 1]) + [(x, ys[|ys| - 1])]
  }

  /** The pairs `(x, y)` for `x` in `xs`, then `y` in `ys`, in the order of two
      nested loops. */
  function Product(xs: seq<int>, ys: seq<int>): seq<Cell>
  {
    if xs == [] then [] else Product(xs[..|xs| - 1], ys) + Pairs(xs[|xs| - 1], ys)
  }

  /** The eight Moore offsets and the centre, in the order of the source's
      `for k_1 in range(-1, 2): for k_2 in range(-1, 2)` (see `MooreOrder`). */
  function Moore(): seq<Cell>
  {
    [(-1, -1), (-1, 0), (-1, 1), (0, -1), (0, 0), (0, 1), (1, -1), (1, 0), (1, 1)]
  }

  /** The offsets are exactly the cells the two offset loops visit, in order. */
  lemma MooreOrder()
    ensures Moore() == Rect(-1, 2, -1, 2)
  {
    assert Span(-1, -1, 2) == [(-1, -1), (-1, 0), (-1, 1)];
    assert Span(0, -1, 2) == [(0, -1), (0, 0), (0, 1)];
    assert Span(1, -1, 2) == [(1, -1), (1, 0), (1, 1)];
  }

  predicate Distinct<T(==)>(s: seq<T>)
  {
    forall a, b | 0 <= a < b < |s| :: s[a] != s[b]
  }

  /** Number of occurrences of `x` in `s`. */
  function Count(s: seq<int>, x: int): nat
  {
    if s == [] then 0 else Count(s[..|s| - 1], x) + (if s[|s| - 1] == x then 1 else 0)
  }

  function Elems(s: seq<int>): set<int>
  {
    set x | x in s
  }

  lemma {:induction false} SpanMembers(r: int, lo: int, hi: int, c: Cell)
    ensures c in Span(r, lo, hi) <==> c.0 == r && lo <= c.1 < hi
    decreases hi - lo
  {
    if lo < hi {
      SpanMembers(r, lo, hi - 1, c);
    }
  }

  lemma {:induction false} SpanDistinct(r: int, lo: int, hi: int)
    ensures Distinct(Span(r, lo, hi))
    decreases hi - lo
  {
    if lo < hi {
      var s := Span(r, lo, hi - 1);
      SpanDistinct(r, lo, hi - 1);
      SpanMembers(r, lo, hi - 1, (r, hi - 1));
      DistinctAppend(s, [(r, hi - 1)]);
    }
  }

  lemma {:induction false} RectMembers(rlo: int, rhi: int, clo: int, chi: int, c: Cell)
    ensures c in Rect(rlo, rhi, clo, chi) <==> rlo <= c.0 < rhi && clo <= c.1 < chi
    decreases rhi - rlo
  {
    if rlo < rhi {
      RectMembers(rlo, rhi - 1, clo, chi, c);
      SpanMembers(rhi - 1, clo, chi, c);
    }
  }

  /** Row-major order visits each cell once: the loops over a grid never
      process a cell twice. */
  lemma {:induction false} RectDistinct(rlo: int, rhi: int, clo: int, chi: int)
    ensures Distinct(Rect(rlo, rhi, clo, chi))
    decreases rhi - rlo
  {
    if rlo < rhi {
      var s := Rect(rlo, rhi - 1, clo, chi);
      var t := Span(rhi - 1, clo, chi);
      RectDistinct(rlo, rhi - 1, clo, chi);
      SpanDistinct(rhi - 1, clo, chi);
      forall c | c in s && c in t ensures false {
        RectMembers(rlo, rhi - 1, clo, chi, c);
        SpanMembers(rhi - 1, clo, chi, c);
      }
      DistinctAppend(s, t);
    }
  }

  lemma DistinctAppend<T>(s: seq<T>, t: seq<T>)
    requires Distinct(s) && Distinct(t)
    requires forall x | x in s :: x !in t
    ensures Distinct(s + t)
  {
    forall a, b | 0 <= a < b < |s + t| ensures (s + t)[a] != (s + t)[b] {
      if a < |s| && |s| <= b {
        assert (s + t)[a] in s;
        assert (s + t)[b] == t[b - |s|];
      }
    }
  }

  /** Membership in a non-empty sequence, split at its last element. */
  lemma InSnoc<T>(s: seq<T>, v: T)
    requires s != []
    ensures v in s <==> v in s[..|s| - 1] || v == s[|s| - 1]
  {
    assert s == s[..|s| - 1] + [s[|s| - 1]];
  }

  lemma {:induction false} PairsMembers(x: int, ys: seq<int>, p: Cell)
    ensures p in Pairs(x, ys) <==> p.0 == x && p.1 in ys
    ensures |Pairs(x, ys)| == |ys|
  {
    if ys != [] {
      PairsMembers(x, ys[..|ys| - 1], p);
      InSnoc(ys, p.1);
    }
  }

  lemma {:induction false} ProductMembers(xs: seq<int>, ys: seq<int>, p: Cell)
    ensures p in Product(xs, ys) <==> p.0 in xs && p.1 in ys
  {
    if xs != [] {
      var init, x := xs[..|xs| - 1], xs[|xs| - 1];
      ProductMembers(init, ys, p);
      PairsMembers(x, ys, p);
      InSnoc(xs, p.0);
      assert p in Product(xs, ys) <==> p in Product(init, ys) || p in Pairs(x, ys);
    }
  }

  lemma SpanAppend(r: int, lo: int, hi: int)
    requires lo <= hi
    ensures Span(r, lo, hi + 1) == Span(r, lo, hi) + [(r, hi)]
  {
  }

  lemma PairsAppend(x: int, ys: seq<int>, t: int)
    requires 0 <= t < |ys|
    ensures Pairs(x, ys[..t + 1]) == Pairs(x, ys[..t]) + [(x, ys[t])]
  {
    assert ys[..t + 1][..t] == ys[..t];
  }

  lemma ProductAppend(xs: seq<int>, ys: seq<int>, t: int)
    requires 0 <= t < |xs|
    ensures Product(xs[..t + 1], ys) == Product(xs[..t], ys) + Pairs(xs[t], ys)
  {
    assert xs[..t + 1][..t] == xs[..t];
  }

  /** Dropping the last element of a sequence without repetitions leaves one
      without repetitions that does not hold that element. */
  lemma DistinctInit<T>(s: seq<T>)
    requires Distinct(s) && s != []
    ensures Distinct(s[..|s| - 1]) && s[|s| - 1] !in s[..|s| - 1]
  {
    var init := s[..|s| - 1];
    forall a | 0 <= a < |init| ensures init[a] != s[|s| - 1] {
      assert s[a] != s[|s| - 1];
    }
  }

  /** A row of pairs with distinct second components repeats no pair. */
  lemma {:induction false} PairsDistinct(x: int, ys: seq<int>)
    requires Distinct(ys)
    ensures Distinct(Pairs(x, ys))
  {
    if ys != [] {
      var init, y := ys[..|ys| - 1], ys[|ys| - 1];
      DistinctInit(ys);
      PairsDistinct(x, init);
      PairsMembers(x, init, (x, y));
      DistinctAppend(Pairs(x, init), [(x, y)]);
    }
  }

  /** Two nested loops over sequences without repetitions visit no pair twice. */
  lemma {:induction false} ProductDistinct(xs: seq<int>, ys: seq<int>)
    requires Distinct(xs) && Distinct(ys)
    ensures Distinct(Product(xs, ys))
  {
    if xs != [] {
      var init, x := xs[..|xs| - 1], xs[|xs| - 1];
      DistinctInit(xs);
      ProductDistinct(init, ys);
      PairsDistinct(x, ys);
      forall p | p in Product(init, ys) ensures p !in Pairs(x, ys) {
        ProductMembers(init, ys, p);
        PairsMembers(x, ys, p);
      }
      DistinctAppend(Product(init, ys), Pairs(x, ys));
    }
  }

  lemma {:induction false} CountDistinct(s: seq<int>, x: int)
    requires Distinct(s)
    ensures Count(s, x) == if x in s then 1 else 0
  {
    if s != [] {
      var init := s[..|s| - 1];
      assert s == init + [s[|s| - 1]];
      CountDistinct(init, x);
      if s[|s| - 1] == x {
        assert x !in init by {
          forall a | 0 <= a < |init| ensures init[a] != x {
            assert s[a] != s[|s| - 1];
          }
        }
      }
    }
  }

  lemma {:induction false} CountAbsent(s: seq<int>, x: int)
    requires x !in s
    ensures Count(s, x) == 0
  {
    if s != [] {
      CountAbsent(s[..|s| - 1], x);
    }
  }
}
