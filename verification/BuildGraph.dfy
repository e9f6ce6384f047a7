/** Dependency graphs as the builder stores them: one dependency list per node, ids being indices. */
module Graphs {

  type Graph = seq<seq<nat>>

  /** Dependencies outside the node range are ignored everywhere. */
  predicate Edge(g: Graph, u: nat, v: nat) {
    u < |g| && v < |g| && v in g[u]
  }

  ghost predicate HasDep(g: Graph, u: nat) {
    exists v :: Edge(g, u, v)
  }

  ghost predicate IsPath(g: Graph, p: seq<nat>) {
    && p != []
    && (forall i :: 0 <= i < |p| ==> p[i] < |g|)
    && (forall i :: 0 <= i < |p| - 1 ==> Edge(g, p[i], p[i + 1]))
  }

  ghost predicate PathFromTo(g: Graph, p: seq<nat>, u: nat, v: nat) {
    IsPath(g, p) && p[0] == u && p[|p| - 1] == v
  }

  /** `u` depends on `v`, directly or not, or is `v`. */
  ghost predicate Reaches(g: Graph, u: nat, v: nat) {
    exists p :: PathFromTo(g, p, u, v)
  }

  ghost predicate Acyclic(g: Graph) {
    forall u, v :: Edge(g, u, v) ==> !Reaches(g, v, u)
  }

  /** Every dependency has a smaller id. */
  ghost predicate Backward(g: Graph) {
    forall u, v :: Edge(g, u, v) ==> v < u
  }

  lemma ReachesSelf(g: Graph, u: nat)
    requires u < |g|
    ensures Reaches(g, u, u)
  {
    assert PathFromTo(g, [u], u, u);
  }

  lemma ReachesThenEdge(g: Graph, u: nat, v: nat, w: nat)
    requires Reaches(g, u, v) && Edge(g, v, w)
    ensures Reaches(g, u, w)
  {
    var p :| PathFromTo(g, p, u, v);
    assert PathFromTo(g, p + [w], u, w);
  }

  lemma EdgeThenReaches(g: Graph, u: nat, v: nat, w: nat)
    requires Edge(g, u, v) && Reaches(g, v, w)
    ensures Reaches(g, u, w)
  {
    var p :| PathFromTo(g, p, v, w);
    assert PathFromTo(g, [u] + p, u, w);
  }

  lemma SinksReachOnlyThemselves(g: Graph, u: nat, v: nat)
    requires Reaches(g, u, v)
    ensures v == u || HasDep(g, u)
  {
    var p :| PathFromTo(g, p, u, v);
    if |p| > 1 {
      assert Edge(g, u, p[1]);
    }
  }

  /** If every edge decreases `rank`, no path increases it. */
  lemma {:induction false} PathsDescend(g: Graph, rank: nat -> nat, p: seq<nat>)
    requires IsPath(g, p)
    requires forall u, v :: Edge(g, u, v) ==> rank(v) < rank(u)
    ensures rank(p[|p| - 1]) <= rank(p[0])
  {
    if |p| > 1 {
      PathsDescend(g, rank, p[1..]);
      assert Edge(g, p[0], p[1]);
    }
  }

  lemma RankedIsAcyclic(g: Graph, rank: nat -> nat)
    requires forall u, v :: Edge(g, u, v) ==> rank(v) < rank(u)
    ensures Acyclic(g)
  {
    forall u, v | Edge(g, u, v) ensures !Reaches(g, v, u) {
      if Reaches(g, v, u) {
        var p :| PathFromTo(g, p, v, u);
        PathsDescend(g, rank, p);
      }
    }
  }

  lemma BackwardIsAcyclic(g: Graph)
    requires Backward(g)
    ensures Acyclic(g)
  {
    RankedIsAcyclic(g, (x: nat) => x);
  }
}
