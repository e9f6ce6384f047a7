/** The single forward pass that marks dirty whatever depends on a dirty node. */
module DirtyPropagation {
  import opened Graphs

  predicate AnyDirtyDep(g: Graph, node: nat, flags: seq<bool>)
    requires node < |g| && |flags| == |g|
  {
    exists j :: 0 <= j < |g[node]| && g[node][j] < |g| && flags[g[node][j]]
  }

  /** The flags after the first `n` nodes were visited. */
  function Passed(g: Graph, flags: seq<bool>, n: nat): (r: seq<bool>)
    requires |flags| == |g| && n <= |g|
    ensures |r| == |g|
  {
    if n == 0 then flags
    else
      var before := Passed(g, flags, n - 1);
      before[n - 1 := before[n - 1] || AnyDirtyDep(g, n - 1, before)]
  }

  /** A path whose every edge but the last goes to a smaller id. */
  ghost predicate Settles(g: Graph, p: seq<nat>, u: nat, v: nat) {
    PathFromTo(g, p, u, v) && forall i :: 0 <= i < |p| - 2 ==> p[i + 1] < p[i]
  }

  ghost predicate SettlesOn(g: Graph, flags: seq<bool>, u: nat)
    requires |flags| == |g|
  {
    exists p: seq<nat>, v: nat :: Settles(g, p, u, v) && flags[v]
  }

  lemma SettlesOneStep(g: Graph, flags: seq<bool>, u: nat)
    requires |flags| == |g| && u < |g|
    ensures SettlesOn(g, flags, u) <==>
            flags[u] || exists d: nat :: Edge(g, u, d) && if d < u then SettlesOn(g, flags, d) else flags[d]
  {
    if SettlesOn(g, flags, u) && !flags[u] {
      var p: seq<nat>, v: nat :| Settles(g, p, u, v) && flags[v];
      assert Edge(g, u, p[1]);
      if |p| == 2 {
        if p[1] < u {
          assert Settles(g, [v], v, v);
        }
      } else {
        assert Settles(g, p[1..], p[1], v);
      }
    }
    if flags[u] {
      assert Settles(g, [u], u, u);
    }
    if d: nat :| Edge(g, u, d) && if d < u then SettlesOn(g, flags, d) else flags[d] {
      if d < u {
        var p: seq<nat>, v: nat :| Settles(g, p, d, v) && flags[v];
        assert Settles(g, [u] + p, u, v);
      } else {
        assert Settles(g, [u, d], u, d);
      }
    }
  }

  /**
    On every graph, forward and cyclic edges included, the pass dirties exactly the nodes
    with a path to an initially dirty node on which only the last edge may go upwards.
   */
  lemma {:induction false} PassIsExact(g: Graph, flags: seq<bool>, n: nat)
    requires |flags| == |g| && n <= |g|
    ensures var r := Passed(g, flags, n);
            && (forall u :: 0 <= u < n ==> (r[u] <==> SettlesOn(g, flags, u)))
            && (forall u :: n <= u < |g| ==> r[u] == flags[u])
  {
    if n > 0 {
      PassIsExact(g, flags, n - 1);
      var before, u := Passed(g, flags, n - 1), n - 1;
      SettlesOneStep(g, flags, u);
      if AnyDirtyDep(g, u, before) {
        var j :| 0 <= j < |g[u]| && g[u][j] < |g| && before[g[u][j]];
        assert Edge(g, u, g[u][j]);
      }
      if d: nat :| Edge(g, u, d) && if d < u then SettlesOn(g, flags, d) else flags[d] {
        var j :| 0 <= j < |g[u]| && g[u][j] == d;
        assert before[g[u][j]];
      }
    }
  }

  /** A dependency on a later node is followed only one step, so a chain of them is missed. */
  lemma ForwardChainIsMissed()
    ensures var g: Graph := [[1], [2], []];
            Reaches(g, 0, 2) && !Passed(g, [false, false, true], 3)[0]
  {
    var g: Graph := [[1], [2], []];
    assert PathFromTo(g, [0, 1, 2], 0, 2);
    var flags := [false, false, true];
    assert Passed(g, flags, 0) == flags;
    assert Passed(g, flags, 1) == flags;
    assert Passed(g, flags, 2)[0] == Passed(g, flags, 1)[0];
    assert Passed(g, flags, 3)[0] == Passed(g, flags, 2)[0];
  }

  /** The flag of `u` after the pass is whether `u` depends on an initially dirty node. */
  ghost predicate Exact(g: Graph, flags: seq<bool>, u: nat)
    requires |flags| == |g| && u < |g|
  {
    Passed(g, flags, |g|)[u] <==> exists v: nat :: Reaches(g, u, v) && v < |g| && flags[v]
  }

  ghost predicate SettlesAll(g: Graph) {
    forall u: nat, v: nat :: Reaches(g, u, v) ==> exists p :: Settles(g, p, u, v)
  }

  lemma SettledPassIsExact(g: Graph, flags: seq<bool>, u: nat)
    requires SettlesAll(g) && |flags| == |g| && u < |g|
    ensures Exact(g, flags, u)
  {
    PassIsExact(g, flags, |g|);
    if SettlesOn(g, flags, u) {
      var p: seq<nat>, v: nat :| Settles(g, p, u, v) && flags[v];
      assert Reaches(g, u, v);
    }
    if v: nat :| Reaches(g, u, v) && v < |g| && flags[v] {
      var p :| Settles(g, p, u, v);
    }
  }

  lemma ExactPassSettles(g: Graph, u: nat, v: nat)
    requires Reaches(g, u, v) && u < |g| && v < |g|
    requires Exact(g, seq(|g|, i => i == v), u)
    ensures exists p :: Settles(g, p, u, v)
  {
    var flags := seq(|g|, i => i == v);
    PassIsExact(g, flags, |g|);
    assert Reaches(g, u, v) && v < |g| && flags[v];
    assert SettlesOn(g, flags, u);
    var p: seq<nat>, w: nat :| Settles(g, p, u, w) && flags[w];
    assert w == p[|p| - 1] && w < |g|;
    assert flags[w] == (w == v);
  }

  /**
    One pass is reachability for all flags if and only if whatever a node depends on is also
    at the end of a path that goes upwards on its last edge at most.
   */
  lemma PassIsReachabilityIffSettles(g: Graph)
    ensures (forall flags: seq<bool>, u: nat :: |flags| == |g| && u < |g| ==> Exact(g, flags, u)) <==> SettlesAll(g)
  {
    if SettlesAll(g) {
      forall flags: seq<bool>, u: nat | |flags| == |g| && u < |g| ensures Exact(g, flags, u) {
        SettledPassIsExact(g, flags, u);
      }
    }
    if forall flags: seq<bool>, u: nat :: |flags| == |g| && u < |g| ==> Exact(g, flags, u) {
      forall u: nat, v: nat | Reaches(g, u, v) ensures exists p :: Settles(g, p, u, v) {
        ExactPassSettles(g, u, v);
      }
    }
  }

  /** With backward dependencies one pass computes exactly what depends on a dirty node. */
  lemma BackwardPassIsReachability(g: Graph, flags: seq<bool>, u: nat)
    requires Backward(g) && |flags| == |g| && u < |g|
    ensures Exact(g, flags, u)
  {
    forall u: nat, v: nat | Reaches(g, u, v) ensures exists p :: Settles(g, p, u, v) {
      var p :| PathFromTo(g, p, u, v);
      assert Settles(g, p, u, v);
    }
    SettledPassIsExact(g, flags, u);
  }

  method PropagateDirty(g: Graph, dirty: array<bool>)
    requires dirty.Length == |g|
    modifies dirty
    ensures dirty[..] == Passed(g, old(dirty[..]), |g|)
  {
    ghost var flags := dirty[..];
    for i := 0 to |g|
      invariant dirty[..] == Passed(g, flags, i)
    {
      if !dirty[i] {
        ghost var before := dirty[..];
        for j := 0 to |g[i]|
          invariant dirty[..] == before
          invariant forall k :: 0 <= k < j && g[i][k] < |g| ==> !before[g[i][k]]
        {
          var dep := g[i][j];
          if dep < |g| && dirty[dep] {
            assert AnyDirtyDep(g, i, before);
            dirty[i] := true;
            break;
          }
        }
      }
    }
  }
}
