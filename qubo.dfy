/** The QUBO of one step: a dictionary from ordered pairs of hardware variables
    to real weights (a pair `(q, q)` is the linear bias of `q`). The encoder only
    ever adds constants to entries it created at the start, so a pass is
    described by the sequence of additions it performs, in loop order, and the
    dictionary after the pass is that sequence applied to the one before. */
module Qubo {
  import opened Traversal

  type Key = Cell

  type Weights = map<Key, real>

  /** One `qubo[key] += delta`. */
  datatype Update = Update(key: Key, delta: real)

  /** Entries of magnitude at most this are dropped before submission. */
  const Epsilon: real := 0.0000001

  function Abs(x: real): real
  {
    if x < 0.0 then -x else x
  }

  /** `{(i,j): 0.0 for i in range(n) for j in range(n)}`. */
  function InitQubo(n: nat): (q: Weights)
    ensures forall k :: k in q <==> 0 <= k.0 < n && 0 <= k.1 < n
    ensures forall k | k in q :: q[k] == 0.0
  {
    map i, j | 0 <= i < n && 0 <= j < n :: (i, j) := 0.0
  }

  /** The dictionary has an entry for every pair of the first `n` variables. */
  predicate Holds(q: Weights, n: int)
  {
    forall i, j | 0 <= i < n && 0 <= j < n :: (i, j) in q
  }

  /** `qubo[u.key] += u.delta` on a key the dictionary holds. */
  function AddTo(q: Weights, u: Update): Weights
  {
    if u.key in q then q[u.key := q[u.key] + u.delta] else q
  }

  /** The additions `us`, performed in order. */
  function Apply(q: Weights, us: seq<Update>): Weights
  {
    if us == [] then q else AddTo(Apply(q, us[..|us| - 1]), us[|us| - 1])
  }

  /** The sum of the additions to `k` among `us`. */
  function Total(us: seq<Update>, k: Key): real
  {
    if us == [] then 0.0
    else Total(us[..|us| - 1], k) + (if us[|us| - 1].key == k then us[|us| - 1].delta else 0.0)
  }

  /** Applying additions keeps the keys and adds their total to each entry. */
  lemma {:induction false} ApplyAt(q: Weights, us: seq<Update>, k: Key)
    ensures Apply(q, us).Keys == q.Keys
    ensures k in q ==> Apply(q, us)[k] == q[k] + Total(us, k)
  {
    if us != [] {
      ApplyAt(q, us[..|us| - 1], k);
    }
  }

  lemma ApplyAppend(q: Weights, us: seq<Update>, u: Update)
    ensures Apply(q, us + [u]) == AddTo(Apply(q, us), u)
  {
    assert (us + [u])[..|us|] == us;
  }

  lemma ApplyThree(q: Weights, u1: Update, u2: Update, u3: Update)
    ensures Apply(q, [u1, u2, u3]) == AddTo(AddTo(AddTo(q, u1), u2), u3)
  {
    assert [u1][..0] == [];
    assert Apply(q, [u1]) == AddTo(q, u1);
    assert [u1, u2][..1] == [u1];
    assert Apply(q, [u1, u2]) == AddTo(AddTo(q, u1), u2);
    assert [u1, u2, u3][..2] == [u1, u2];
  }

  lemma {:induction false} ApplyConcat(q: Weights, us: seq<Update>, vs: seq<Update>)
    ensures Apply(q, us + vs) == Apply(Apply(q, us), vs)
  {
    if vs != [] {
      assert (us + vs)[..|us + vs| - 1] == us + vs[..|vs| - 1];
      ApplyConcat(q, us, vs[..|vs| - 1]);
    } else {
      assert us + vs == us;
    }
  }

  lemma {:induction false} TotalConcat(us: seq<Update>, vs: seq<Update>, k: Key)
    ensures Total(us + vs, k) == Total(us, k) + Total(vs, k)
  {
    if vs != [] {
      assert (us + vs)[..|us + vs| - 1] == us + vs[..|vs| - 1];
      TotalConcat(us, vs[..|vs| - 1], k);
    } else {
      assert us + vs == us;
    }
  }

  /** A key no addition touches keeps its weight. */
  lemma {:induction false} TotalAbsent(us: seq<Update>, k: Key)
    requires forall u | u in us :: u.key != k
    ensures Total(us, k) == 0.0
  {
    if us != [] {
      TotalAbsent(us[..|us| - 1], k);
    }
  }

  /** A key that exactly one addition touches gets exactly that addition. */
  lemma {:induction false} TotalOnce(us: seq<Update>, k: Key, m: int)
    requires 0 <= m < |us| && us[m].key == k
    requires forall i | 0 <= i < |us| && i != m :: us[i].key != k
    ensures Total(us, k) == us[m].delta
  {
    var init := us[..|us| - 1];
    if m == |us| - 1 {
      forall u | u in init ensures u.key != k {
        var i :| 0 <= i < |init| && init[i] == u;
        assert us[i] == u;
      }
      TotalAbsent(init, k);
    } else {
      assert init[m] == us[m];
      TotalOnce(init, k, m);
    }
  }

  /** The additions `f(c)` for the cells `cells`, one cell after the other: the
      shape of every pass that loops over the field. */
  function Gather(f: Cell -> seq<Update>, cells: seq<Cell>): seq<Update>
  {
    if cells == [] then [] else Gather(f, cells[..|cells| - 1]) + f(cells[|cells| - 1])
  }

  lemma GatherAppend(f: Cell -> seq<Update>, cells: seq<Cell>, c: Cell)
    ensures Gather(f, cells + [c]) == Gather(f, cells) + f(c)
  {
    assert (cells + [c])[..|cells|] == cells;
  }

  lemma {:induction false} GatherConcat(f: Cell -> seq<Update>, cells: seq<Cell>, more: seq<Cell>)
    ensures Gather(f, cells + more) == Gather(f, cells) + Gather(f, more)
  {
    if more == [] {
      assert cells + more == cells;
    } else {
      assert (cells + more)[..|cells + more| - 1] == cells + more[..|more| - 1];
      GatherConcat(f, cells, more[..|more| - 1]);
    }
  }

  /** Every addition of a pass comes from one of the cells. */
  lemma {:induction false} GatherMember(f: Cell -> seq<Update>, cells: seq<Cell>, u: Update)
    requires u in Gather(f, cells)
    ensures exists d | d in cells :: u in f(d)
  {
    var init, d := cells[..|cells| - 1], cells[|cells| - 1];
    if u in Gather(f, init) {
      GatherMember(f, init, u);
      var e :| e in init && u in f(e);
      assert e in cells;
    } else {
      assert u in f(d);
    }
  }

  /** A key no cell adds to keeps its weight. */
  lemma {:induction false} GatherAbsent(f: Cell -> seq<Update>, cells: seq<Cell>, k: Key)
    requires forall d | d in cells :: Total(f(d), k) == 0.0
    ensures Total(Gather(f, cells), k) == 0.0
  {
    if cells != [] {
      var init, d := cells[..|cells| - 1], cells[|cells| - 1];
      assert forall e | e in init :: e in cells;
      GatherAbsent(f, init, k);
      TotalConcat(Gather(f, init), f(d), k);
    }
  }

  /** A key only cell `c` adds to gets exactly what `c` adds, since no cell is
      visited twice. */
  lemma {:induction false} GatherAt(f: Cell -> seq<Update>, cells: seq<Cell>, c: Cell, k: Key)
    requires Distinct(cells) && c in cells
    requires forall d | d in cells && d != c :: Total(f(d), k) == 0.0
    ensures Total(Gather(f, cells), k) == Total(f(c), k)
  {
    var init, d := cells[..|cells| - 1], cells[|cells| - 1];
    assert cells == init + [d];
    assert Distinct(init) && d !in init by {
      forall a | 0 <= a < |init| ensures init[a] != d {
        assert cells[a] != cells[|cells| - 1];
      }
    }
    TotalConcat(Gather(f, init), f(d), k);
    if d == c {
      GatherAbsent(f, init, k);
    } else {
      assert c in init;
      GatherAt(f, init, c, k);
    }
  }

  /** `{k: v for k, v in qubo.items() if abs(v) > 0.0000001}`. */
  function Prune(q: Weights): (r: Weights)
    ensures forall k :: k in r <==> k in q && Abs(q[k]) > Epsilon
    ensures forall k | k in r :: r[k] == q[k]
  {
    map k | k in q && Abs(q[k]) > Epsilon :: q[k]
  }

  /** An entry of weight `v` or `-v` survives pruning exactly when `v` is
      large enough, and then unchanged. */
  lemma PruneMagnitude(q: Weights, k: Key, v: real)
    requires k in q && (q[k] == v || q[k] == -v)
    ensures k in Prune(q) <==> Abs(v) > Epsilon
    ensures k in Prune(q) ==> Prune(q)[k] == q[k]
  {
  }

  /** Pruning a pruned QUBO changes nothing: no small entry survives it. */
  lemma PruneIdempotent(q: Weights)
    ensures Prune(Prune(q)) == Prune(q)
  {
  }
}
