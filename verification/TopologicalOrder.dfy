/**
  Depth-first ordering. A node is pushed after its dependencies, so the finish order
  lists dependencies first; the order handed out is that list reversed.
 */
module TopologicalOrder {
  import opened Common
  import opened Graphs

  datatype Walk = Walk(visited: set<nat>, stack: seq<nat>)

  function Below(n: nat): (r: set<nat>)
    ensures forall v: nat :: v in r <==> v < n
  {
    if n == 0 then {} else Below(n - 1) + {n - 1}
  }

  function All(g: Graph): set<nat> {
    Below(|g|)
  }

  function Dfs(g: Graph, node: nat, w: Walk): (r: Walk)
    requires node < |g| && node !in w.visited
    ensures w.visited + {node} <= r.visited
    decreases All(g) - w.visited, 0
  {
    var r := DfsDeps(g, node, 0, Walk(w.visited + {node}, w.stack));
    Walk(r.visited, r.stack + [node])
  }

  function DfsDeps(g: Graph, node: nat, i: nat, w: Walk): (r: Walk)
    requires node < |g| && i <= |g[node]|
    ensures w.visited <= r.visited
    decreases All(g) - w.visited, 1 + |g[node]| - i
  {
    if i == |g[node]| then w
    else
      var dep := g[node][i];
      if dep < |g| && dep !in w.visited then DfsDeps(g, node, i + 1, Dfs(g, dep, w))
      else DfsDeps(g, node, i + 1, w)
  }

  function Roots(g: Graph, i: nat, w: Walk): Walk
    requires i <= |g|
    decreases |g| - i
  {
    if i == |g| then w
    else if i in w.visited then Roots(g, i + 1, w)
    else Roots(g, i + 1, Dfs(g, i, w))
  }

  /** The order in which nodes are pushed. */
  function FinishOrder(g: Graph): seq<nat> {
    Roots(g, 0, Walk({}, [])).stack
  }

  function Reverse(s: seq<nat>): seq<nat> {
    seq(|s|, i requires 0 <= i < |s| => s[|s| - 1 - i])
  }

  /** What `topological_order` returns. */
  function Order(g: Graph): seq<nat> {
    Reverse(FinishOrder(g))
  }

  // ----- every node exactly once, on every graph -------------------------------

  ghost predicate Permutation(g: Graph, s: seq<nat>) {
    && Distinct(s)
    && (forall i :: 0 <= i < |s| ==> s[i] < |g|)
    && (forall v: nat :: v in s <==> v < |g|)
  }

  function Elements(s: seq<nat>): set<nat> {
    set v | v in s
  }

  /** Visited but not yet pushed: the nodes on the recursion path. */
  function Open(w: Walk): set<nat> {
    w.visited - Elements(w.stack)
  }

  ghost predicate Proper(g: Graph, w: Walk) {
    Distinct(w.stack) && Elements(w.stack) <= w.visited <= All(g)
  }

  lemma {:induction false} DfsShape(g: Graph, node: nat, w: Walk)
    requires node < |g| && node !in w.visited && Proper(g, w)
    ensures var r := Dfs(g, node, w);
            Proper(g, r) && Open(r) == Open(w) && w.stack <= r.stack && node in r.stack
    decreases All(g) - w.visited, 0
  {
    var w1 := Walk(w.visited + {node}, w.stack);
    DfsDepsShape(g, node, 0, w1);
    var r1 := DfsDeps(g, node, 0, w1);
    assert Open(w1) == Open(w) + {node} && node !in Open(w);
    var r := Walk(r1.visited, r1.stack + [node]);
    assert Elements(r.stack) == Elements(r1.stack) + {node};
    assert Open(r) == Open(r1) - {node};
    assert node in Open(r1);
  }

  lemma {:induction false} DfsDepsShape(g: Graph, node: nat, i: nat, w: Walk)
    requires node < |g| && i <= |g[node]| && Proper(g, w)
    ensures var r := DfsDeps(g, node, i, w); Proper(g, r) && Open(r) == Open(w) && w.stack <= r.stack
    decreases All(g) - w.visited, 1 + |g[node]| - i
  {
    if i < |g[node]| {
      var dep := g[node][i];
      if dep < |g| && dep !in w.visited {
        DfsShape(g, dep, w);
        DfsDepsShape(g, node, i + 1, Dfs(g, dep, w));
      } else {
        DfsDepsShape(g, node, i + 1, w);
      }
    }
  }

  lemma {:induction false} RootsShape(g: Graph, i: nat, w: Walk)
    requires i <= |g| && Proper(g, w) && Open(w) == {}
    requires forall v :: 0 <= v < i ==> v in w.visited
    ensures Proper(g, Roots(g, i, w)) && Permutation(g, Roots(g, i, w).stack)
    decreases |g| - i
  {
    if i == |g| {
      forall v: nat ensures v in w.stack <==> v < |g| {
        assert v in w.stack <==> v in Elements(w.stack);
        assert v in w.visited && v !in Elements(w.stack) ==> v in Open(w);
        assert v in w.visited ==> v in All(g);
      }
      assert forall k :: 0 <= k < |w.stack| ==> w.stack[k] in w.stack;
    } else if i in w.visited {
      RootsShape(g, i + 1, w);
    } else {
      DfsShape(g, i, w);
      RootsShape(g, i + 1, Dfs(g, i, w));
    }
  }

  lemma ReverseKeepsElements(s: seq<nat>)
    ensures forall v :: v in Reverse(s) <==> v in s
    ensures Distinct(s) ==> Distinct(Reverse(s))
  {
    forall v ensures v in Reverse(s) <==> v in s {
      if v in s {
        var i :| 0 <= i < |s| && s[i] == v;
        assert Reverse(s)[|s| - 1 - i] == v;
      }
    }
  }

  /** On every graph, cyclic or with dangling dependencies, each node is listed exactly once. */
  lemma OrderIsPermutation(g: Graph)
    ensures Permutation(g, FinishOrder(g)) && Permutation(g, Order(g))
  {
    RootsShape(g, 0, Walk({}, []));
    ReverseKeepsElements(FinishOrder(g));
  }

  // ----- dependencies first, on acyclic graphs ---------------------------------

  ghost predicate DepsFirst(g: Graph, s: seq<nat>) {
    forall i, d :: 0 <= i < |s| && Edge(g, s[i], d) ==> d in s[..i]
  }

  ghost predicate AllReach(g: Graph, us: set<nat>, v: nat) {
    forall u :: u in us ==> Reaches(g, u, v)
  }

  lemma {:induction false} DfsOrders(g: Graph, node: nat, w: Walk)
    requires Acyclic(g) && node < |g| && node !in w.visited && Proper(g, w)
    requires DepsFirst(g, w.stack) && AllReach(g, Open(w), node)
    ensures DepsFirst(g, Dfs(g, node, w).stack)
    decreases All(g) - w.visited, 0
  {
    var w1 := Walk(w.visited + {node}, w.stack);
    ReachesSelf(g, node);
    assert Open(w1) == Open(w) + {node};
    DfsDepsOrders(g, node, 0, w1);
    var r1 := DfsDeps(g, node, 0, w1);
    var s := r1.stack + [node];
    forall i, d | 0 <= i < |s| && Edge(g, s[i], d) ensures d in s[..i] {
      if i == |r1.stack| {
        assert s[..i] == r1.stack;
        var j :| 0 <= j < |g[node]| && g[node][j] == d;
      } else {
        assert s[..i] == r1.stack[..i];
      }
    }
  }

  lemma {:induction false} DfsDepsOrders(g: Graph, node: nat, i: nat, w: Walk)
    requires Acyclic(g) && node < |g| && i <= |g[node]| && Proper(g, w)
    requires DepsFirst(g, w.stack) && AllReach(g, Open(w), node)
    requires forall j :: 0 <= j < i && g[node][j] < |g| ==> g[node][j] in w.stack
    ensures var r := DfsDeps(g, node, i, w);
            DepsFirst(g, r.stack) && forall j :: 0 <= j < |g[node]| && g[node][j] < |g| ==> g[node][j] in r.stack
    decreases All(g) - w.visited, 1 + |g[node]| - i
  {
    if i < |g[node]| {
      var dep := g[node][i];
      if dep < |g| && dep !in w.visited {
        forall u | u in Open(w) ensures Reaches(g, u, dep) {
          ReachesThenEdge(g, u, node, dep);
        }
        DfsShape(g, dep, w);
        DfsOrders(g, dep, w);
        DfsDepsOrders(g, node, i + 1, Dfs(g, dep, w));
      } else {
        if dep < |g| {
          assert Edge(g, node, dep);
          assert dep !in Open(w);
        }
        DfsDepsOrders(g, node, i + 1, w);
      }
    }
  }

  lemma {:induction false} RootsOrders(g: Graph, i: nat, w: Walk)
    requires Acyclic(g) && i <= |g| && Proper(g, w) && Open(w) == {} && DepsFirst(g, w.stack)
    ensures DepsFirst(g, Roots(g, i, w).stack)
    decreases |g| - i
  {
    if i < |g| {
      if i in w.visited {
        RootsOrders(g, i + 1, w);
      } else {
        DfsShape(g, i, w);
        DfsOrders(g, i, w);
        RootsOrders(g, i + 1, Dfs(g, i, w));
      }
    }
  }

  function IndexOf(s: seq<nat>, v: nat): (r: nat)
    ensures v in s ==> r < |s| && s[r] == v && v !in s[..r]
  {
    if s == [] || s[0] == v then 0 else 1 + IndexOf(s[1..], v)
  }

  /** Acyclic graphs are exactly those with a dependencies-first order, and DFS then finds one. */
  lemma FinishOrderIsTopologicalIffAcyclic(g: Graph)
    ensures DepsFirst(g, FinishOrder(g)) <==> Acyclic(g)
  {
    OrderIsPermutation(g);
    if Acyclic(g) {
      RootsOrders(g, 0, Walk({}, []));
    }
    if DepsFirst(g, FinishOrder(g)) {
      DepsFirstImpliesAcyclic(g, FinishOrder(g));
    }
  }

  lemma DepsFirstImpliesAcyclic(g: Graph, s: seq<nat>)
    requires Permutation(g, s) && DepsFirst(g, s)
    ensures Acyclic(g)
  {
    forall u, v | Edge(g, u, v) ensures IndexOf(s, v) < IndexOf(s, u) {
      assert s[IndexOf(s, u)] == u && v in s[..IndexOf(s, u)];
    }
    RankedIsAcyclic(g, (v: nat) => IndexOf(s, v));
  }

  /** Dependents come strictly before their dependencies. */
  ghost predicate DependentsFirst(g: Graph, s: seq<nat>) {
    forall i, d :: 0 <= i < |s| && Edge(g, s[i], d) ==> d !in s[..i + 1]
  }

  lemma ReversedDepsFirst(g: Graph, s: seq<nat>)
    requires Distinct(s) && DepsFirst(g, s)
    ensures DependentsFirst(g, Reverse(s))
  {
    var r := Reverse(s);
    forall i, d | 0 <= i < |r| && Edge(g, r[i], d) ensures d !in r[..i + 1] {
      var k := |s| - 1 - i;
      assert r[i] == s[k] && d in s[..k];
      var j :| 0 <= j < k && s[j] == d;
      forall m | 0 <= m <= i ensures r[m] != d {
        assert r[m] == s[|s| - 1 - m];
      }
    }
  }

  /** On an acyclic graph the returned order is dependents-first. */
  lemma OrderIsDependentsFirst(g: Graph)
    requires Acyclic(g)
    ensures DependentsFirst(g, Order(g))
  {
    OrderIsPermutation(g);
    FinishOrderIsTopologicalIffAcyclic(g);
    ReversedDepsFirst(g, FinishOrder(g));
  }

  lemma NeverBoth(g: Graph, s: seq<nat>, u: nat, v: nat)
    requires Permutation(g, s) && Edge(g, u, v)
    ensures !(DepsFirst(g, s) && DependentsFirst(g, s))
  {
    var i := IndexOf(s, u);
    assert s[i] == u;
    if DepsFirst(g, s) {
      assert v in s[..i] && s[..i + 1] == s[..i] + [u];
    }
  }

  /** So it is an execution order only for graphs without any (in-range) dependency. */
  lemma OrderIsExecutableIffNoEdges(g: Graph)
    ensures DepsFirst(g, Order(g)) <==> forall u, v :: !Edge(g, u, v)
  {
    OrderIsPermutation(g);
    if DepsFirst(g, Order(g)) {
      DepsFirstImpliesAcyclic(g, Order(g));
      OrderIsDependentsFirst(g);
      forall u, v ensures !Edge(g, u, v) {
        if Edge(g, u, v) {
          NeverBoth(g, Order(g), u, v);
        }
      }
    }
  }

  // ----- builder-made graphs ----------------------------------------------------

  function Ascending(n: nat): seq<nat> {
    seq(n, i => i)
  }

  lemma {:induction false} DepsAllVisited(g: Graph, node: nat, i: nat, w: Walk)
    requires node < |g| && i <= |g[node]|
    requires forall d :: Edge(g, node, d) ==> d in w.visited
    ensures DfsDeps(g, node, i, w) == w
    decreases |g[node]| - i
  {
    if i < |g[node]| {
      assert g[node][i] < |g| ==> Edge(g, node, g[node][i]);
      DepsAllVisited(g, node, i + 1, w);
    }
  }

  lemma {:induction false} BackwardRoots(g: Graph, i: nat)
    requires Backward(g) && i <= |g|
    ensures Roots(g, i, Walk(Below(i), Ascending(i))).stack == Ascending(|g|)
    decreases |g| - i
  {
    if i < |g| {
      var w := Walk(Below(i), Ascending(i));
      DepsAllVisited(g, i, 0, Walk(w.visited + {i}, w.stack));
      assert Dfs(g, i, w) == Walk(Below(i + 1), Ascending(i) + [i]);
      assert Ascending(i) + [i] == Ascending(i + 1);
      BackwardRoots(g, i + 1);
    }
  }

  /** When every dependency has a smaller id, the returned order is n-1 down to 0. */
  lemma BackwardOrderIsDescending(g: Graph)
    requires Backward(g)
    ensures FinishOrder(g) == Ascending(|g|)
    ensures |Order(g)| == |g| && forall i :: 0 <= i < |g| ==> Order(g)[i] == |g| - 1 - i
  {
    assert Ascending(0) == [];
    BackwardRoots(g, 0);
  }

  // ----- the methods --------------------------------------------------------------

  function Marked(flags: seq<bool>): (r: set<nat>)
    ensures forall v: nat :: v in r <==> v < |flags| && flags[v]
  {
    if flags == [] then {}
    else
      var n := |flags| - 1;
      Marked(flags[..n]) + if flags[n] then {n} else {}
  }

  method DfsTopo(g: Graph, node: nat, visited: array<bool>, stack: seq<nat>) returns (pushed: seq<nat>)
    requires visited.Length == |g| && node < |g| && !visited[node]
    modifies visited
    ensures Walk(Marked(visited[..]), pushed) == Dfs(g, node, Walk(Marked(old(visited[..])), stack))
    decreases All(g) - Marked(visited[..])
  {
    ghost var before := Marked(visited[..]);
    visited[node] := true;
    pushed := stack;
    ghost var w1 := Walk(before + {node}, stack);
    assert Marked(visited[..]) == w1.visited;
    for i := 0 to |g[node]|
      invariant w1.visited <= Marked(visited[..])
      invariant DfsDeps(g, node, 0, w1) == DfsDeps(g, node, i, Walk(Marked(visited[..]), pushed))
    {
      var dep := g[node][i];
      if dep < |g| && !visited[dep] {
        pushed := DfsTopo(g, dep, visited, pushed);
      }
    }
    pushed := pushed + [node];
  }

  method TopologicalSort(g: Graph) returns (order: seq<nat>)
    ensures order == Order(g)
  {
    var visited := new bool[|g|](_ => false);
    var stack: seq<nat> := [];
    assert Marked(visited[..]) == {};
    for i := 0 to |g|
      invariant Roots(g, 0, Walk({}, [])) == Roots(g, i, Walk(Marked(visited[..]), stack))
    {
      if !visited[i] {
        stack := DfsTopo(g, i, visited, stack);
      }
    }
    order := Reverse(stack);
  }
}
