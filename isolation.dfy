/** Fourth pass of `makeStepOne` (qgol.py:126-128): every variable index below
    the number of hardware nodes that the coupling pass did not mark as used
    gets `+100` on its self-weight, which biases it towards 0. */
module Isolation {
  import opened Traversal
  import opened Qubo

  /** The additions of the loop over `0 .. n - 1`. */
  function IsolationUpdates(used: set<int>, n: int): seq<Update>
    decreases n
  {
    if n <= 0 then []
    else IsolationUpdates(used, n - 1) + (if n - 1 in used then [] else [Update((n - 1, n - 1), 100.0)])
  }

  /** Runs the pass on a QUBO over `n` variables. */
  method IsolationPass(qubo: Weights, n: nat, used: set<int>) returns (q: Weights)
    requires Holds(qubo, n)
    ensures q == Apply(qubo, IsolationUpdates(used, n))
    ensures q.Keys == qubo.Keys
  {
    q := qubo;
    var i := 0;
    while i < n
      invariant 0 <= i <= n
      invariant q.Keys == qubo.Keys
      invariant q == Apply(qubo, IsolationUpdates(used, i))
    {
      ghost var v := q;
      if i !in used {
        q := q[(i, i) := q[(i, i)] + 100.0];
      }
      IsolationStep(qubo, v, q, used, i);
      i := i + 1;
    }
  }

  lemma IsolationStep(w: Weights, v: Weights, q: Weights, used: set<int>, i: nat)
    requires v == Apply(w, IsolationUpdates(used, i))
    requires i in used ==> q == v
    requires i !in used ==> (i, i) in v && q == v[(i, i) := v[(i, i)] + 100.0]
    ensures q == Apply(w, IsolationUpdates(used, i + 1))
  {
    if i !in used {
      ApplyAppend(w, IsolationUpdates(used, i), Update((i, i), 100.0));
    } else {
      assert IsolationUpdates(used, i + 1) == IsolationUpdates(used, i) + [];
      ApplyConcat(w, IsolationUpdates(used, i), []);
    }
  }

  /** The pass adds exactly `+100` to the self-weight of each unused variable
      below `n`, and nothing anywhere else. */
  lemma {:induction false} IsolationAt(used: set<int>, n: int, k: Key)
    ensures Total(IsolationUpdates(used, n), k) ==
      if k.0 == k.1 && 0 <= k.0 < n && k.0 !in used then 100.0 else 0.0
    decreases n
  {
    if n > 0 {
      var init := IsolationUpdates(used, n - 1);
      var last := if n - 1 in used then [] else [Update((n - 1, n - 1), 100.0)];
      IsolationAt(used, n - 1, k);
      TotalConcat(init, last, k);
      if last != [] {
        assert last[..0] == [];
      }
    }
  }
}
