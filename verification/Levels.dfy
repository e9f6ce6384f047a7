/**
  Grouping nodes into execution levels. The level loop is proved for an arbitrary order,
  then for the two orders that matter: the one the code uses (dependents first) and the
  unreversed finish order (dependencies first), which is what its documentation intends.
 */
module Levels {
  import opened Common
  import opened Graphs
  import opened TopologicalOrder

  /** Largest `level + 1` over the first `i` dependencies that are in range. */
  function MaxDepLevel(g: Graph, node: nat, i: nat, levels: seq<nat>): nat
    requires node < |g| && i <= |g[node]| && |levels| == |g|
  {
    if i == 0 then 0
    else
      var m, dep := MaxDepLevel(g, node, i - 1, levels), g[node][i - 1];
      if dep < |g| && levels[dep] + 1 > m then levels[dep] + 1 else m
  }

  function Zeros(n: nat): seq<nat> {
    seq(n, _ => 0)
  }

  /** `node_levels` after the first `n` nodes of `order` were processed. */
  function Assigned(g: Graph, order: seq<nat>, n: nat): (levels: seq<nat>)
    requires n <= |order| && forall k :: 0 <= k < |order| ==> order[k] < |g|
    ensures |levels| == |g|
  {
    if n == 0 then Zeros(|g|)
    else
      var before, node := Assigned(g, order, n - 1), order[n - 1];
      before[node := MaxDepLevel(g, node, |g[node]|, before)]
  }

  /** Levels over any order that lists each node once. */
  function LevelsOver(g: Graph, order: seq<nat>): (levels: seq<nat>)
    requires Permutation(g, order)
    ensures |levels| == |g|
  {
    Assigned(g, order, |order|)
  }

  /** The levels the code assigns. */
  function NodeLevels(g: Graph): (levels: seq<nat>)
    ensures |levels| == |g|
  {
    OrderIsPermutation(g);
    LevelsOver(g, Order(g))
  }

  /** The levels its documentation describes. */
  function IntendedLevels(g: Graph): (levels: seq<nat>)
    ensures |levels| == |g|
  {
    OrderIsPermutation(g);
    LevelsOver(g, FinishOrder(g))
  }

  lemma {:induction false} MaxDepBounds(g: Graph, node: nat, i: nat, levels: seq<nat>)
    requires node < |g| && i <= |g[node]| && |levels| == |g|
    ensures var m := MaxDepLevel(g, node, i, levels);
            && (forall j :: 0 <= j < i && g[node][j] < |g| ==> levels[g[node][j]] + 1 <= m)
            && (m > 0 ==> exists j :: 0 <= j < i && g[node][j] < |g| && levels[g[node][j]] + 1 == m)
  {
    if i > 0 {
      MaxDepBounds(g, node, i - 1, levels);
    }
  }

  // ----- as written: only two levels ---------------------------------------------

  lemma {:induction false} DependentsFirstLevels(g: Graph, order: seq<nat>, n: nat)
    requires Permutation(g, order) && DependentsFirst(g, order) && n <= |order|
    ensures var levels := Assigned(g, order, n);
            && (forall k :: 0 <= k < n ==> levels[order[k]] == if HasDep(g, order[k]) then 1 else 0)
            && (forall v: nat :: v < |g| && v !in order[..n] ==> levels[v] == 0)
  {
    if n > 0 {
      DependentsFirstLevels(g, order, n - 1);
      var before, node := Assigned(g, order, n - 1), order[n - 1];
      assert order[..n] == order[..n - 1] + [node];
      MaxDepBounds(g, node, |g[node]|, before);
      forall d: nat | Edge(g, node, d) ensures before[d] == 0 {
        assert d !in order[..n];
      }
      if HasDep(g, node) {
        var d: nat :| Edge(g, node, d);
        var j :| 0 <= j < |g[node]| && g[node][j] == d;
        assert forall j :: 0 <= j < |g[node]| && g[node][j] < |g| ==> Edge(g, node, g[node][j]);
      } else {
        assert forall j :: 0 <= j < |g[node]| ==> !Edge(g, node, g[node][j]);
      }
    }
  }

  /** On every acyclic graph the code puts nodes without dependencies in level 0 and all others in level 1. */
  lemma OnlyTwoLevels(g: Graph, v: nat)
    requires Acyclic(g) && v < |g|
    ensures NodeLevels(g)[v] == if HasDep(g, v) then 1 else 0
  {
    OrderIsPermutation(g);
    OrderIsDependentsFirst(g);
    DependentsFirstLevels(g, Order(g), |Order(g)|);
    assert Order(g)[IndexOf(Order(g), v)] == v;
  }

  ghost predicate Respects(g: Graph, levels: seq<nat>)
    requires |levels| == |g|
  {
    forall u: nat, v: nat :: Edge(g, u, v) ==> levels[v] < levels[u]
  }

  lemma RespectedIsAcyclic(g: Graph, levels: seq<nat>)
    requires |levels| == |g| && Respects(g, levels)
    ensures Acyclic(g)
  {
    RankedIsAcyclic(g, (v: nat) => if v < |levels| then levels[v] else 0);
  }

  ghost predicate Shallow(g: Graph) {
    forall u: nat, v: nat :: Edge(g, u, v) ==> !HasDep(g, v)
  }

  lemma ShallowIsAcyclic(g: Graph)
    requires Shallow(g)
    ensures Acyclic(g)
  {
    forall u: nat, v: nat | Edge(g, u, v) ensures !Reaches(g, v, u) {
      if Reaches(g, v, u) {
        SinksReachOnlyThemselves(g, v, u);
      }
    }
  }

  /** On every graph a level's nodes are independent exactly when no dependency has dependencies of its own. */
  lemma LevelsRespectDepsIffShallow(g: Graph)
    ensures Respects(g, NodeLevels(g)) <==> Shallow(g)
  {
    if Respects(g, NodeLevels(g)) || Shallow(g) {
      if Shallow(g) { ShallowIsAcyclic(g); } else { RespectedIsAcyclic(g, NodeLevels(g)); }
      forall u: nat | u < |g| ensures NodeLevels(g)[u] == if HasDep(g, u) then 1 else 0 {
        OnlyTwoLevels(g, u);
      }
    }
    if Respects(g, NodeLevels(g)) {
      forall u: nat, v: nat | Edge(g, u, v) ensures !HasDep(g, v) {
        assert NodeLevels(g)[v] < NodeLevels(g)[u];
      }
    }
  }

  /** A chain of three instructions already puts a dependency beside its dependent. */
  lemma ChainSharesLevel()
    ensures var g := [[], [0], [1]]; Edge(g, 2, 1) && NodeLevels(g)[1] == NodeLevels(g)[2]
  {
    var g: Graph := [[], [0], [1]];
    BackwardIsAcyclic(g);
    assert Edge(g, 1, 0) && Edge(g, 2, 1);
    OnlyTwoLevels(g, 1);
    OnlyTwoLevels(g, 2);
  }

  // ----- as intended: longest dependency path --------------------------------------

  ghost predicate PathOfLength(g: Graph, p: seq<nat>, v: nat, edges: nat) {
    IsPath(g, p) && p[0] == v && |p| == edges + 1
  }

  ghost predicate IsLongest(g: Graph, v: nat, edges: nat) {
    (exists p :: PathOfLength(g, p, v, edges)) && (forall p :: IsPath(g, p) && p[0] == v ==> |p| <= edges + 1)
  }

  lemma LongestFromDeps(g: Graph, node: nat, levels: seq<nat>)
    requires node < |g| && |levels| == |g|
    requires forall d: nat :: Edge(g, node, d) ==> IsLongest(g, d, levels[d])
    ensures IsLongest(g, node, MaxDepLevel(g, node, |g[node]|, levels))
  {
    var m := MaxDepLevel(g, node, |g[node]|, levels);
    MaxDepBounds(g, node, |g[node]|, levels);
    if m == 0 {
      assert PathOfLength(g, [node], node, 0);
    } else {
      var j :| 0 <= j < |g[node]| && g[node][j] < |g| && levels[g[node][j]] + 1 == m;
      var d := g[node][j];
      assert Edge(g, node, d);
      var p :| PathOfLength(g, p, d, levels[d]);
      assert PathOfLength(g, [node] + p, node, m);
    }
    forall p | IsPath(g, p) && p[0] == node ensures |p| <= m + 1 {
      if |p| > 1 {
        assert Edge(g, node, p[1]);
        var j :| 0 <= j < |g[node]| && g[node][j] == p[1];
        assert IsPath(g, p[1..]) && p[1..][0] == p[1];
      }
    }
  }

  lemma {:induction false} DepsFirstLevel(g: Graph, order: seq<nat>, n: nat, k: nat)
    requires Permutation(g, order) && DepsFirst(g, order) && k < n <= |order|
    ensures IsLongest(g, order[k], Assigned(g, order, n)[order[k]])
  {
    var before, node := Assigned(g, order, n - 1), order[n - 1];
    if k < n - 1 {
      DepsFirstLevel(g, order, n - 1, k);
      assert order[k] != node;
    } else {
      forall d: nat | Edge(g, node, d) ensures IsLongest(g, d, before[d]) {
        assert d in order[..k];
        var j :| 0 <= j < k && order[j] == d;
        DepsFirstLevel(g, order, k, j);
      }
      LongestFromDeps(g, node, before);
    }
  }

  /** Over the unreversed order a node's level is the length of its longest dependency path. */
  lemma IntendedLevelIsLongestPath(g: Graph, v: nat)
    requires Acyclic(g) && v < |g|
    ensures IsLongest(g, v, IntendedLevels(g)[v])
  {
    OrderIsPermutation(g);
    FinishOrderIsTopologicalIffAcyclic(g);
    DepsFirstLevel(g, FinishOrder(g), |FinishOrder(g)|, IndexOf(FinishOrder(g), v));
  }

  /** Hence every dependency sits in a strictly lower level, on every graph where that is possible at all. */
  lemma IntendedLevelsRespectDeps(g: Graph)
    ensures Respects(g, IntendedLevels(g)) <==> Acyclic(g)
  {
    if Respects(g, IntendedLevels(g)) {
      RespectedIsAcyclic(g, IntendedLevels(g));
    }
    if Acyclic(g) {
      forall u: nat, v: nat | Edge(g, u, v) ensures IntendedLevels(g)[v] < IntendedLevels(g)[u] {
        IntendedLevelIsLongestPath(g, u);
        IntendedLevelIsLongestPath(g, v);
        var p :| PathOfLength(g, p, v, IntendedLevels(g)[v]);
        assert IsPath(g, [u] + p) && ([u] + p)[0] == u;
      }
    }
  }

  // ----- grouping -------------------------------------------------------------------

  function MaxLevel(levels: seq<nat>): (m: nat)
    ensures forall v :: 0 <= v < |levels| ==> levels[v] <= m
    ensures levels != [] ==> m in levels
    ensures levels == [] ==> m == 0
  {
    if levels == [] then 0
    else
      var n := |levels| - 1;
      var m := MaxLevel(levels[..n]);
      assert levels == levels[..n] + [levels[n]];
      if levels[n] > m then levels[n] else if n == 0 then levels[0] else m
  }

  /** The ids at level `l` among the first `n`, ascending. */
  function IdsAt(levels: seq<nat>, n: nat, l: nat): (ids: seq<nat>)
    requires n <= |levels|
    ensures forall v: nat :: v in ids <==> v < n && levels[v] == l
    ensures forall i, j :: 0 <= i < j < |ids| ==> ids[i] < ids[j]
  {
    if n == 0 then []
    else
      var ids := IdsAt(levels, n - 1, l);
      assert forall i :: 0 <= i < |ids| ==> ids[i] in ids;
      if levels[n - 1] == l then ids + [n - 1] else ids
  }

  function Grouped(levels: seq<nat>, n: nat, count: nat): seq<seq<nat>>
    requires n <= |levels|
  {
    seq(count, l requires 0 <= l < count => IdsAt(levels, n, l))
  }

  function Groups(levels: seq<nat>): seq<seq<nat>> {
    Grouped(levels, |levels|, MaxLevel(levels) + 1)
  }

  function Flatten(groups: seq<seq<nat>>): seq<nat> {
    if groups == [] then [] else Flatten(groups[..|groups| - 1]) + groups[|groups| - 1]
  }

  lemma {:induction false} FlattenGrouped(levels: seq<nat>, count: nat)
    ensures var s := Flatten(Grouped(levels, |levels|, count));
            Distinct(s) && forall v: nat :: v in s <==> v < |levels| && levels[v] < count
  {
    if count > 0 {
      FlattenGrouped(levels, count - 1);
      assert Grouped(levels, |levels|, count)[..count - 1] == Grouped(levels, |levels|, count - 1);
      var s, last := Flatten(Grouped(levels, |levels|, count - 1)), IdsAt(levels, |levels|, count - 1);
      assert Flatten(Grouped(levels, |levels|, count)) == s + last;
      forall i, j | 0 <= i < |s| && 0 <= j < |last| ensures s[i] != last[j] {
        assert s[i] in s && last[j] in last;
      }
    }
  }

  /** There are no more groups than needed: the last one is not empty, unless there are no nodes at all. */
  lemma LastGroupIsUsed(levels: seq<nat>)
    ensures |Groups(levels)| >= 1
    ensures if levels == [] then Groups(levels) == [[]] else Groups(levels)[|Groups(levels)| - 1] != []
  {
    var m := MaxLevel(levels);
    if levels != [] {
      var v :| 0 <= v < |levels| && levels[v] == m;
      assert v in IdsAt(levels, |levels|, m);
    }
  }

  /** The groups list every node id exactly once, each in the group of its level. */
  lemma GroupsPartition(levels: seq<nat>)
    ensures Distinct(Flatten(Groups(levels))) && forall v: nat :: v in Flatten(Groups(levels)) <==> v < |levels|
    ensures forall v :: 0 <= v < |levels| ==> levels[v] < |Groups(levels)| && v in Groups(levels)[levels[v]]
    ensures forall l, v :: 0 <= l < |Groups(levels)| && v in Groups(levels)[l] ==> 0 <= v < |levels| && levels[v] == l
  {
    FlattenGrouped(levels, MaxLevel(levels) + 1);
    forall l, v: nat | 0 <= l < |Groups(levels)|
      ensures v in Groups(levels)[l] <==> v < |levels| && levels[v] == l
    {
      GroupMembers(levels, l, v);
    }
  }

  lemma GroupMembers(levels: seq<nat>, l: nat, v: nat)
    requires l < |Groups(levels)|
    ensures v in Groups(levels)[l] <==> v < |levels| && levels[v] == l
  {
    assert Groups(levels)[l] == IdsAt(levels, |levels|, l);
  }

  method AssignLevels(g: Graph, order: seq<nat>) returns (levels: seq<nat>)
    requires Permutation(g, order)
    ensures levels == LevelsOver(g, order)
  {
    var nodeLevels := new nat[|g|](_ => 0);
    assert nodeLevels[..] == Zeros(|g|);
    for k := 0 to |order|
      invariant nodeLevels[..] == Assigned(g, order, k)
    {
      var node := order[k];
      var max := 0;
      for i := 0 to |g[node]|
        invariant nodeLevels[..] == Assigned(g, order, k)
        invariant max == MaxDepLevel(g, node, i, nodeLevels[..])
      {
        var dep := g[node][i];
        if dep < |g| && nodeLevels[dep] + 1 > max {
          max := nodeLevels[dep] + 1;
        }
      }
      nodeLevels[node] := max;
    }
    levels := nodeLevels[..];
  }

  method GroupLevels(levels: seq<nat>) returns (groups: seq<seq<nat>>)
    ensures groups == Groups(levels)
  {
    var count := MaxLevel(levels) + 1;
    groups := seq(count, _ => []);
    assert groups == Grouped(levels, 0, count);
    for v := 0 to |levels|
      invariant groups == Grouped(levels, v, count)
    {
      groups := groups[levels[v] := groups[levels[v]] + [v]];
    }
  }

  method ComputeLevels(g: Graph) returns (groups: seq<seq<nat>>)
    ensures groups == Groups(NodeLevels(g))
  {
    OrderIsPermutation(g);
    var order := TopologicalSort(g);
    var levels := AssignLevels(g, order);
    groups := GroupLevels(levels);
  }
}
