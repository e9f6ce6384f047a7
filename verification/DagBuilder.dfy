/** Building the dependency graph from parsed instructions. */
module DagBuilder {
  import opened Common
  import opened Dockerfile
  import opened Graphs
  import opened TopologicalOrder
  import opened DirtyPropagation

  datatype Node = Node(
    id: nat,
    content: string,
    deps: seq<nat>,
    env: map<string, string>,
    hash: string,
    dirty: bool,
    cacheHit: bool,
    parallelizable: bool)

  /** str::contains */
  predicate Contains(text: string, part: string) {
    part <= text || (text != [] && Contains(text[1..], part))
  }

  /** The part occurs at position `k`. */
  predicate OccursAt(text: string, part: string, k: nat) {
    k + |part| <= |text| && text[k..k + |part|] == part
  }

  lemma OccursLater(text: string, part: string, k: nat)
    requires text != []
    ensures OccursAt(text, part, k + 1) <==> OccursAt(text[1..], part, k)
  {
    if k + 1 + |part| <= |text| {
      assert text[1..][k..k + |part|] == text[k + 1..k + 1 + |part|];
    }
  }

  lemma OccursFirst(text: string, part: string)
    ensures OccursAt(text, part, 0) <==> part <= text
  {
    if |part| <= |text| {
      assert text[0..|part|] == text[..|part|];
    }
  }

  lemma {:induction false} ContainsIff(text: string, part: string)
    ensures Contains(text, part) <==> exists k: nat :: OccursAt(text, part, k)
  {
    OccursFirst(text, part);
    if text != [] {
      ContainsIff(text[1..], part);
      if k: nat :| OccursAt(text[1..], part, k) {
        OccursLater(text, part, k);
        assert OccursAt(text, part, k + 1);
      }
      if k: nat :| k > 0 && OccursAt(text, part, k) {
        OccursLater(text, part, k - 1);
        assert OccursAt(text[1..], part, k - 1);
      }
    }
  }

  predicate Names(command: string, src: string) {
    Contains(command, src) || Contains(command, "./" + src)
  }

  /** Instruction `j` is the last COPY of its source before `i`. */
  ghost predicate LatestCopy(instrs: seq<Instruction>, i: nat, j: nat)
    requires i <= |instrs|
  {
    j < i && instrs[j].Copy? &&
    forall k :: j < k < i ==> !(instrs[k].Copy? && instrs[k].src == instrs[j].src)
  }

  /** A node depends on its predecessor unless it is a FROM, and a RUN also on the copies it names. */
  ghost predicate IsDep(instrs: seq<Instruction>, i: nat, j: nat)
    requires i < |instrs|
  {
    if instrs[i].From? then false
    else i == j + 1 || (instrs[i].Run? && LatestCopy(instrs, i, j) && Names(instrs[i].command, instrs[j].src))
  }

  /** A command names a source exactly when the source occurs in it; the prefixed form adds nothing. */
  lemma NamesIff(command: string, src: string)
    ensures Names(command, src) <==> exists k: nat :: OccursAt(command, src, k)
  {
    ContainsIff(command, src);
    ContainsIff(command, "./" + src);
    if k: nat :| OccursAt(command, "./" + src, k) {
      assert command[k + 2..k + 2 + |src|] == command[k..k + 2 + |src|][2..];
      assert OccursAt(command, src, k + 2);
    }
  }

  predicate ParallelizableRun(command: string) {
    !Contains(command, "rm") && !Contains(command, "mv") && !Contains(command, "chmod")
  }

  predicate Parallelizable(i: Instruction) {
    match i
    case From(_) => false
    case Run(command) => ParallelizableRun(command)
    case RunExtend(_, parallelizable) => parallelizable
    case Hook(_, _) => false
    case Other(_) => false
    case _ => true
  }

  ghost predicate TracksCopies(instrs: seq<Instruction>, i: nat, copies: map<string, nat>)
    requires i <= |instrs|
  {
    && (forall src :: src in copies ==> LatestCopy(instrs, i, copies[src]) && instrs[copies[src]].src == src)
    && (forall j: nat :: j < i && instrs[j].Copy? ==> instrs[j].src in copies)
  }

  lemma LatestCopyIsTracked(instrs: seq<Instruction>, i: nat, copies: map<string, nat>, j: nat)
    requires i <= |instrs| && TracksCopies(instrs, i, copies) && LatestCopy(instrs, i, j)
    ensures instrs[j].src in copies && copies[instrs[j].src] == j
  {
  }

  /** The iteration order of the source table is arbitrary, and so is the order of the added dependencies. */
  method RunDeps(instrs: seq<Instruction>, i: nat, copies: map<string, nat>) returns (deps: seq<nat>)
    requires i < |instrs| && instrs[i].Run? && TracksCopies(instrs, i, copies)
    ensures Distinct(deps) && forall j: nat :: j in deps <==> IsDep(instrs, i, j)
  {
    var command := instrs[i].command;
    deps := if i > 0 then [i - 1] else [];
    var todo := copies.Keys;
    while todo != {}
      invariant todo <= copies.Keys && Distinct(deps)
      invariant forall j :: j in deps ==> IsDep(instrs, i, j)
      invariant i > 0 ==> i - 1 in deps
      invariant forall src :: src in copies && src !in todo && Names(command, src) ==> copies[src] in deps
      decreases todo
    {
      var src :| src in todo;
      todo := todo - {src};
      if Names(command, src) && copies[src] !in deps {
        deps := deps + [copies[src]];
      }
    }
    forall j: nat | IsDep(instrs, i, j) ensures j in deps {
      if i != j + 1 {
        LatestCopyIsTracked(instrs, i, copies, j);
      }
    }
  }

  ghost predicate Describes(debug: seq<string> -> string, instrs: seq<Instruction>, i: nat, n: Node)
    requires i < |instrs|
  {
    && n.id == i && n.content == Content(debug, instrs[i]) && !n.dirty && !n.cacheHit && n.hash == ""
    && n.parallelizable == Parallelizable(instrs[i])
    && n.env == (if instrs[i].Env? then map[instrs[i].name := instrs[i].value] else map[])
    && Distinct(n.deps) && forall j: nat :: j in n.deps <==> IsDep(instrs, i, j)
  }

  ghost predicate Built(debug: seq<string> -> string, instrs: seq<Instruction>, nodes: seq<Node>) {
    |nodes| == |instrs| && forall i :: 0 <= i < |nodes| ==> Describes(debug, instrs, i, nodes[i])
  }

  method BuildGraphFromInstructions(debug: seq<string> -> string, instrs: seq<Instruction>) returns (nodes: seq<Node>)
    ensures Built(debug, instrs, nodes)
  {
    nodes := [];
    var copies: map<string, nat> := map[];
    for i := 0 to |instrs|
      invariant |nodes| == i && forall k :: 0 <= k < i ==> Describes(debug, instrs, k, nodes[k])
      invariant TracksCopies(instrs, i, copies)
    {
      var instr := instrs[i];
      var deps := if i > 0 && !instr.From? then [i - 1] else [];
      if instr.Run? {
        deps := RunDeps(instrs, i, copies);
      }
      var env := if instr.Env? then map[instr.name := instr.value] else map[];
      var node := Node(i, Content(debug, instr), deps, env, "", false, false, Parallelizable(instr));
      TrackOneMore(instrs, i, copies);
      if instr.Copy? {
        copies := copies[instr.src := i];
      }
      nodes := nodes + [node];
    }
  }

  lemma TrackOneMore(instrs: seq<Instruction>, i: nat, copies: map<string, nat>)
    requires i < |instrs| && TracksCopies(instrs, i, copies)
    ensures TracksCopies(instrs, i + 1, if instrs[i].Copy? then copies[instrs[i].src := i] else copies)
  {
  }

  // ----- what built graphs satisfy -------------------------------------------------------

  function DepsOf(nodes: seq<Node>): Graph {
    seq(|nodes|, i requires 0 <= i < |nodes| => nodes[i].deps)
  }

  /** Built graphs have backward dependencies, so they are acyclic and ordered n-1 down to 0. */
  lemma BuiltGraphsAreBackward(debug: seq<string> -> string, instrs: seq<Instruction>, nodes: seq<Node>)
    requires Built(debug, instrs, nodes)
    ensures Backward(DepsOf(nodes)) && Acyclic(DepsOf(nodes))
    ensures forall i :: 0 <= i < |nodes| ==>
      |Order(DepsOf(nodes))| == |nodes| && Order(DepsOf(nodes))[i] == |nodes| - 1 - i
  {
    var g := DepsOf(nodes);
    forall u: nat, v: nat | Edge(g, u, v) ensures v < u {
      assert Describes(debug, instrs, u, nodes[u]);
    }
    BackwardIsAcyclic(g);
    BackwardOrderIsDescending(g);
  }

  lemma {:induction false} ChainReachesBack(
    debug: seq<string> -> string, instrs: seq<Instruction>, nodes: seq<Node>, j: nat, k: nat)
    requires Built(debug, instrs, nodes) && j <= k < |instrs|
    requires forall m :: j < m <= k ==> !instrs[m].From?
    ensures Reaches(DepsOf(nodes), k, j)
  {
    var g := DepsOf(nodes);
    if j == k {
      ReachesSelf(g, j);
    } else {
      ChainReachesBack(debug, instrs, nodes, j, k - 1);
      assert Describes(debug, instrs, k, nodes[k]) && IsDep(instrs, k, k - 1);
      assert Edge(g, k, k - 1);
      EdgeThenReaches(g, k, k - 1, j);
    }
  }

  /** Dirtying instruction `j` dirties everything after it up to the next FROM. */
  lemma DirtySpreadsToNextFrom(
    debug: seq<string> -> string, instrs: seq<Instruction>, nodes: seq<Node>, flags: seq<bool>, j: nat, k: nat)
    requires Built(debug, instrs, nodes) && |flags| == |nodes| && j <= k < |instrs| && flags[j]
    requires forall m :: j < m <= k ==> !instrs[m].From?
    ensures Passed(DepsOf(nodes), flags, |nodes|)[k]
  {
    BuiltGraphsAreBackward(debug, instrs, nodes);
    ChainReachesBack(debug, instrs, nodes, j, k);
    BackwardPassIsReachability(DepsOf(nodes), flags, k);
  }

  /** A FROM is dirty after the pass only if it was dirty before it. */
  lemma FromIsNeverDirtied(
    debug: seq<string> -> string, instrs: seq<Instruction>, nodes: seq<Node>, flags: seq<bool>, k: nat)
    requires Built(debug, instrs, nodes) && |flags| == |nodes| && k < |instrs| && instrs[k].From?
    ensures Passed(DepsOf(nodes), flags, |nodes|)[k] <==> flags[k]
  {
    var g := DepsOf(nodes);
    BuiltGraphsAreBackward(debug, instrs, nodes);
    BackwardPassIsReachability(g, flags, k);
    assert Describes(debug, instrs, k, nodes[k]);
    assert !HasDep(g, k);
    forall v: nat | Reaches(g, k, v) ensures v == k {
      SinksReachOnlyThemselves(g, k, v);
    }
    ReachesSelf(g, k);
  }

  /** Two RUN nodes of a built graph have the same content exactly when their commands are the same. */
  lemma RunNodesDiffer(debug: seq<string> -> string, instrs: seq<Instruction>, nodes: seq<Node>, i: nat, j: nat)
    requires Built(debug, instrs, nodes) && i < |instrs| && j < |instrs|
    requires instrs[i].Run? && instrs[j].Run? && Wellformed(instrs[i]) && Wellformed(instrs[j])
    ensures nodes[i].content == nodes[j].content <==> instrs[i].command == instrs[j].command
  {
    assert Describes(debug, instrs, i, nodes[i]) && Describes(debug, instrs, j, nodes[j]);
    ContentPinsInstruction(instrs[i], instrs[j], debug);
  }

  ghost predicate Mentions(command: string, part: string) {
    exists k: nat :: OccursAt(command, part, k)
  }

  /** Which nodes may run in parallel: no base image, hook or unknown line, and no RUN that mentions rm, mv or chmod. */
  lemma ParallelNodes(debug: seq<string> -> string, instrs: seq<Instruction>, nodes: seq<Node>, i: nat)
    requires Built(debug, instrs, nodes) && i < |instrs|
    ensures nodes[i].parallelizable <==>
            && !instrs[i].From? && !instrs[i].Hook? && !instrs[i].Other?
            && (instrs[i].RunExtend? ==> instrs[i].parallelizable)
            && (instrs[i].Run? ==>
                  var command := instrs[i].command;
                  !Mentions(command, "rm") && !Mentions(command, "mv") && !Mentions(command, "chmod"))
  {
    assert Describes(debug, instrs, i, nodes[i]);
    if instrs[i].Run? {
      ContainsIff(instrs[i].command, "rm");
      ContainsIff(instrs[i].command, "mv");
      ContainsIff(instrs[i].command, "chmod");
    }
  }

  /**
    Dependencies in plain terms: a FROM has none; any other node depends on the instruction
    just before, and a RUN also on the last COPY of each source that occurs in its command.
   */
  lemma NodeDependsIff(
    debug: seq<string> -> string, instrs: seq<Instruction>, nodes: seq<Node>, i: nat, j: nat)
    requires Built(debug, instrs, nodes) && i < |instrs|
    ensures Edge(DepsOf(nodes), i, j) <==>
            && j < i && !instrs[i].From?
            && (|| j == i - 1
                || (instrs[i].Run? && instrs[j].Copy? && Mentions(instrs[i].command, instrs[j].src) &&
                    forall k :: j < k < i && instrs[k].Copy? ==> instrs[k].src != instrs[j].src))
  {
    assert Describes(debug, instrs, i, nodes[i]);
    if j < i && instrs[i].Run? && instrs[j].Copy? {
      NamesIff(instrs[i].command, instrs[j].src);
    }
  }

  /** Dirtying the last COPY of a source dirties every RUN whose command names it, across any FROM in between. */
  lemma CopyDirtiesItsUsers(
    debug: seq<string> -> string, instrs: seq<Instruction>, nodes: seq<Node>, flags: seq<bool>, j: nat, i: nat)
    requires Built(debug, instrs, nodes) && |flags| == |nodes| && j < i < |instrs| && flags[j]
    requires instrs[i].Run? && instrs[j].Copy? && Mentions(instrs[i].command, instrs[j].src)
    requires forall k :: j < k < i && instrs[k].Copy? ==> instrs[k].src != instrs[j].src
    ensures Passed(DepsOf(nodes), flags, |nodes|)[i]
  {
    var g := DepsOf(nodes);
    NodeDependsIff(debug, instrs, nodes, i, j);
    BuiltGraphsAreBackward(debug, instrs, nodes);
    BackwardPassIsReachability(g, flags, i);
    ReachesSelf(g, j);
    EdgeThenReaches(g, i, j, j);
  }
}
