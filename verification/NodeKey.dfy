/**
  The content-addressed identity of a node: a hash over its kind, content, environment,
  context and dependency hashes, with environment names and dependency hashes sorted.
 */
module NodeKeys {
  import opened Common

  datatype KeyedNode = KeyedNode(
    kind: string,
    content: string,
    env: map<string, string>,
    sourceHash: Option<string>,
    parallelizable: bool,
    priority: nat)

  // ----- sorting strings ------------------------------------------------------------------

  predicate LexLe(a: string, b: string) {
    if a == [] then true
    else if b == [] then false
    else if a[0] != b[0] then a[0] < b[0]
    else LexLe(a[1..], b[1..])
  }

  lemma {:induction false} LexTotal(a: string, b: string)
    ensures LexLe(a, b) || LexLe(b, a)
    ensures LexLe(a, b) && LexLe(b, a) ==> a == b
  {
    if a != [] && b != [] && a[0] == b[0] {
      LexTotal(a[1..], b[1..]);
      assert a == [a[0]] + a[1..] && b == [b[0]] + b[1..];
    }
  }

  lemma {:induction false} LexTransitive(a: string, b: string, c: string)
    requires LexLe(a, b) && LexLe(b, c)
    ensures LexLe(a, c)
  {
    if a != [] && a[0] == b[0] == c[0] {
      LexTransitive(a[1..], b[1..], c[1..]);
    }
  }

  ghost predicate Sorted(xs: seq<string>) {
    forall i, j :: 0 <= i < j < |xs| ==> LexLe(xs[i], xs[j])
  }

  function InsertSorted(xs: seq<string>, x: string): seq<string> {
    if xs == [] || LexLe(x, xs[0]) then [x] + xs else [xs[0]] + InsertSorted(xs[1..], x)
  }

  function Sort(xs: seq<string>): seq<string> {
    if xs == [] then [] else InsertSorted(Sort(xs[..|xs| - 1]), xs[|xs| - 1])
  }

  lemma {:induction false} InsertSortedKeepsElements(xs: seq<string>, x: string)
    ensures multiset(InsertSorted(xs, x)) == multiset(xs) + multiset{x}
  {
    if xs != [] && !LexLe(x, xs[0]) {
      InsertSortedKeepsElements(xs[1..], x);
      assert xs == [xs[0]] + xs[1..];
    }
  }

  lemma SortedCons(x: string, xs: seq<string>)
    requires Sorted(xs) && (xs != [] ==> LexLe(x, xs[0]))
    ensures Sorted([x] + xs)
  {
    forall i | 0 <= i < |xs| ensures LexLe(x, xs[i]) {
      if i > 0 {
        LexTransitive(x, xs[0], xs[i]);
      }
    }
  }

  lemma {:induction false} InsertSortedIsSorted(xs: seq<string>, x: string)
    requires Sorted(xs)
    ensures Sorted(InsertSorted(xs, x))
    ensures InsertSorted(xs, x)[0] == x || (xs != [] && InsertSorted(xs, x)[0] == xs[0])
  {
    if xs == [] || LexLe(x, xs[0]) {
      SortedCons(x, xs);
    } else {
      InsertSortedIsSorted(xs[1..], x);
      LexTotal(x, xs[0]);
      SortedCons(xs[0], InsertSorted(xs[1..], x));
    }
  }

  lemma {:induction false} SortIsSorted(xs: seq<string>)
    ensures Sorted(Sort(xs))
  {
    if xs != [] {
      SortIsSorted(xs[..|xs| - 1]);
      InsertSortedIsSorted(Sort(xs[..|xs| - 1]), xs[|xs| - 1]);
    }
  }

  lemma {:induction false} SortKeepsElements(xs: seq<string>)
    ensures multiset(Sort(xs)) == multiset(xs)
  {
    if xs != [] {
      var init, last := xs[..|xs| - 1], xs[|xs| - 1];
      SortKeepsElements(init);
      InsertSortedKeepsElements(Sort(init), last);
      assert xs == init + [last];
    }
  }

  lemma SortSorts(xs: seq<string>)
    ensures Sorted(Sort(xs)) && multiset(Sort(xs)) == multiset(xs)
  {
    SortIsSorted(xs);
    SortKeepsElements(xs);
  }

  lemma SortedHeadsAgree(a: seq<string>, b: seq<string>)
    requires Sorted(a) && Sorted(b) && a != [] && b != []
    requires a[0] in b && b[0] in a
    ensures a[0] == b[0]
  {
    var i :| 0 <= i < |b| && b[i] == a[0];
    var j :| 0 <= j < |a| && a[j] == b[0];
    LexTotal(a[0], a[0]);
    LexTotal(a[0], b[0]);
  }

  lemma {:induction false} SortedIsUnique(a: seq<string>, b: seq<string>)
    requires Sorted(a) && Sorted(b) && multiset(a) == multiset(b)
    ensures a == b
  {
    assert |multiset(a)| == |a| && |multiset(b)| == |b|;
    if a != [] {
      assert a[0] in multiset(b) && b[0] in multiset(a);
      SortedHeadsAgree(a, b);
      assert a == [a[0]] + a[1..] && b == [b[0]] + b[1..];
      assert multiset(a) == multiset{a[0]} + multiset(a[1..]) && multiset(b) == multiset{a[0]} + multiset(b[1..]);
      TailsAgree(a[0], a[1..], b[1..]);
      SortedIsUnique(a[1..], b[1..]);
    }
  }

  lemma TailsAgree(x: string, a: seq<string>, b: seq<string>)
    requires multiset{x} + multiset(a) == multiset{x} + multiset(b)
    ensures multiset(a) == multiset(b)
  {
    assert multiset(a) == (multiset{x} + multiset(a)) - multiset{x};
    assert multiset(b) == (multiset{x} + multiset(b)) - multiset{x};
  }

  /** Sorting forgets exactly the order. */
  lemma SortedEqualIffPermuted(a: seq<string>, b: seq<string>)
    ensures Sort(a) == Sort(b) <==> multiset(a) == multiset(b)
  {
    SortSorts(a);
    SortSorts(b);
    if multiset(a) == multiset(b) {
      SortedIsUnique(Sort(a), Sort(b));
    }
  }

  // ----- the key ---------------------------------------------------------------------------

  function EnvEntries(env: map<string, string>, names: seq<string>): seq<string>
    requires forall i :: 0 <= i < |names| ==> names[i] in env
  {
    seq(|names|, i requires 0 <= i < |names| => names[i] + "=" + env[names[i]])
  }

  function OrEmpty(s: Option<string>): string {
    match s case Some(v) => v case None => ""
  }

  /** The pieces fed to the hasher, given the environment's names in sorted order. */
  function KeyPieces(
    node: KeyedNode, names: seq<string>, deps: seq<string>, context: Option<string>, fingerprint: Option<string>)
    : seq<string>
    requires forall i :: 0 <= i < |names| ==> names[i] in node.env
  {
    [node.kind, node.content, Joined(EnvEntries(node.env, names)), OrEmpty(context), OrEmpty(node.sourceHash),
     Joined(Sort(deps)), FlagText(node.parallelizable), PriorityText(node.priority), OrEmpty(fingerprint)]
  }

  function FlagText(b: bool): string {
    "parallelizable=" + if b then "true" else "false"
  }

  function PriorityText(n: nat): string {
    "priority=" + Decimal(n)
  }

  function KeyText(
    node: KeyedNode, names: seq<string>, deps: seq<string>, context: Option<string>, fingerprint: Option<string>)
    : string
    requires forall i :: 0 <= i < |names| ==> names[i] in node.env
  {
    Joined(KeyPieces(node, names, deps, context, fingerprint))
  }

  /** `names` lists the environment's names once each, in order. */
  ghost predicate SortedNames(env: map<string, string>, names: seq<string>) {
    Sorted(names) && multiset(names) == multiset(env.Keys)
  }

  lemma SortedNamesExist(env: map<string, string>, names: seq<string>)
    requires SortedNames(env, names)
    ensures forall i :: 0 <= i < |names| ==> names[i] in env
  {
    forall i | 0 <= i < |names| ensures names[i] in env {
      assert names[i] in multiset(names);
    }
  }

  /** Names are drawn from the map in an arbitrary order; the key does not depend on it. */
  method ComputeNodeKey(
    H: string -> string, node: KeyedNode, deps: seq<string>, context: Option<string>, fingerprint: Option<string>)
    returns (key: string, names: seq<string>)
    ensures SortedNames(node.env, names)
    ensures forall i :: 0 <= i < |names| ==> names[i] in node.env
    ensures key == H(KeyText(node, names, deps, context, fingerprint))
  {
    names := SortedEnvNames(node.env);
    SortedNamesExist(node.env, names);
    var env := Feed(EnvEntries(node.env, names));
    var sorted := Feed(Sort(deps));
    var fed := Feed([node.kind, node.content, env, OrEmpty(context), OrEmpty(node.sourceHash), sorted,
                         FlagText(node.parallelizable), PriorityText(node.priority), OrEmpty(fingerprint)]);
    key := H(fed);
  }

  /** One hasher update per piece. */
  method Feed(pieces: seq<string>) returns (fed: string)
    ensures fed == Joined(pieces)
  {
    fed := "";
    for i := 0 to |pieces|
      invariant fed == Joined(pieces[..i])
    {
      assert pieces[..i + 1][..i] == pieces[..i];
      fed := fed + pieces[i];
    }
    assert pieces[..|pieces|] == pieces;
  }

  method SortedEnvNames(env: map<string, string>) returns (names: seq<string>)
    ensures SortedNames(env, names)
  {
    names := [];
    var todo := env.Keys;
    while todo != {}
      invariant multiset(names) + multiset(todo) == multiset(env.Keys)
      decreases todo
    {
      var name :| name in todo;
      todo := todo - {name};
      names := names + [name];
    }
    SortSorts(names);
    names := Sort(names);
  }

  // ----- canonical form ---------------------------------------------------------------------

  /** Any two runs order the names alike, so map iteration order cannot show in the key. */
  lemma NamesAreCanonical(env: map<string, string>, a: seq<string>, b: seq<string>)
    requires SortedNames(env, a) && SortedNames(env, b)
    ensures a == b
  {
    SortedIsUnique(a, b);
  }

  lemma {:induction false} JoinedLength(xs: seq<string>, n: nat)
    requires forall i :: 0 <= i < |xs| ==> |xs[i]| == n
    ensures |Joined(xs)| == |xs| * n
  {
    if xs != [] {
      JoinedLength(xs[..|xs| - 1], n);
      assert (|xs| - 1) * n + n == |xs| * n;
    }
  }

  lemma {:induction false} JoinedInjective(a: seq<string>, b: seq<string>, n: nat)
    requires n > 0 && Joined(a) == Joined(b)
    requires (forall i :: 0 <= i < |a| ==> |a[i]| == n) && (forall i :: 0 <= i < |b| ==> |b[i]| == n)
    ensures a == b
  {
    JoinedLength(a, n);
    JoinedLength(b, n);
    assert |a| == |b| by { MulCancel(|a|, |b|, n); }
    if a != [] {
      var x, y := a[..|a| - 1], b[..|b| - 1];
      JoinedLength(x, n);
      JoinedLength(y, n);
      assert Joined(a)[..|Joined(x)|] == Joined(x) && Joined(b)[..|Joined(x)|] == Joined(y);
      assert Joined(a)[|Joined(x)|..] == a[|a| - 1] && Joined(b)[|Joined(x)|..] == b[|b| - 1];
      JoinedInjective(x, y, n);
      assert a == x + [a[|a| - 1]] && b == y + [b[|b| - 1]];
    }
  }

  lemma MulCancel(a: nat, b: nat, n: nat)
    requires n > 0 && a * n == b * n
    ensures a == b
  {
    if a < b {
      MulMonotone(a, b, n);
    } else if b < a {
      MulMonotone(b, a, n);
    }
  }

  lemma MulMonotone(a: nat, b: nat, n: nat)
    requires a < b && n > 0
    ensures a * n < b * n
  {
    assert b * n == a * n + (b - a) * n;
  }

  /** Length of a dependency hash in hexadecimal. */
  const HASH_LENGTH: nat := 64

  /**
    For one node, context and fingerprint and a hash that does not collide on the two
    texts, two keys are equal exactly when the dependency hashes are the same up to order.
   */
  lemma KeysAgreeIffDepsPermuted(
    H: string -> string, node: KeyedNode, names: seq<string>, context: Option<string>, fingerprint: Option<string>,
    a: seq<string>, b: seq<string>)
    requires forall i :: 0 <= i < |names| ==> names[i] in node.env
    requires var ta, tb := KeyText(node, names, a, context, fingerprint), KeyText(node, names, b, context, fingerprint);
             H(ta) == H(tb) ==> ta == tb
    requires forall i :: 0 <= i < |a| ==> |a[i]| == HASH_LENGTH
    requires forall i :: 0 <= i < |b| ==> |b[i]| == HASH_LENGTH
    ensures H(KeyText(node, names, a, context, fingerprint)) == H(KeyText(node, names, b, context, fingerprint))
            <==> multiset(a) == multiset(b)
  {
    DepsTextPinsDeps(a, b);
    var pieces := KeyPieces(node, names, a, context, fingerprint);
    assert pieces[5 := Joined(Sort(a))] == pieces;
    assert pieces[5 := Joined(Sort(b))] == KeyPieces(node, names, b, context, fingerprint);
    OnePieceCounts(pieces, 5, Joined(Sort(a)), Joined(Sort(b)));
  }

  lemma DepsTextPinsDeps(a: seq<string>, b: seq<string>)
    requires forall i :: 0 <= i < |a| ==> |a[i]| == HASH_LENGTH
    requires forall i :: 0 <= i < |b| ==> |b[i]| == HASH_LENGTH
    ensures Joined(Sort(a)) == Joined(Sort(b)) <==> multiset(a) == multiset(b)
  {
    SortedEqualIffPermuted(a, b);
    if Joined(Sort(a)) == Joined(Sort(b)) {
      SortKeepsLengths(a, HASH_LENGTH);
      SortKeepsLengths(b, HASH_LENGTH);
      JoinedInjective(Sort(a), Sort(b), HASH_LENGTH);
    }
  }

  lemma SortKeepsLengths(xs: seq<string>, n: nat)
    requires forall i :: 0 <= i < |xs| ==> |xs[i]| == n
    ensures forall i :: 0 <= i < |Sort(xs)| ==> |Sort(xs)[i]| == n
  {
    SortSorts(xs);
    forall i | 0 <= i < |Sort(xs)| ensures |Sort(xs)[i]| == n {
      assert Sort(xs)[i] in multiset(Sort(xs));
      assert Sort(xs)[i] in xs;
    }
  }

  /** Fields are fed without separators: text moved from the context to the source hash leaves the key alone. */
  lemma FieldsAreNotSeparated(
    node: KeyedNode, names: seq<string>, deps: seq<string>, fp: Option<string>, x: string, moved: string, y: string)
    requires forall i :: 0 <= i < |names| ==> names[i] in node.env
    ensures KeyText(node.(sourceHash := Some(y)), names, deps, Some(x + moved), fp) ==
            KeyText(node.(sourceHash := Some(moved + y)), names, deps, Some(x), fp)
  {
    var pieces := KeyPieces(node, names, deps, None, fp);
    assert pieces[3 := x + moved][4 := y] == KeyPieces(node.(sourceHash := Some(y)), names, deps, Some(x + moved), fp);
    assert pieces[3 := x][4 := moved + y] == KeyPieces(node.(sourceHash := Some(moved + y)), names, deps, Some(x), fp);
    BoundariesDoNotCount(pieces, 3, x, moved, y);
  }

  /** Everything the key is computed from; `names` are the environment's names in order. */
  datatype KeyInputs = KeyInputs(
    node: KeyedNode,
    names: seq<string>,
    deps: seq<string>,
    context: Option<string>,
    fingerprint: Option<string>)

  ghost predicate ProperInputs(x: KeyInputs) {
    && SortedNames(x.node.env, x.names) && (forall i :: 0 <= i < |x.names| ==> x.names[i] in x.node.env)
    && forall i :: 0 <= i < |x.deps| ==> |x.deps[i]| == HASH_LENGTH
  }

  function PiecesOf(x: KeyInputs): seq<string>
    requires forall i :: 0 <= i < |x.names| ==> x.names[i] in x.node.env
  {
    KeyPieces(x.node, x.names, x.deps, x.context, x.fingerprint)
  }

  function TextOf(x: KeyInputs): string
    requires forall i :: 0 <= i < |x.names| ==> x.names[i] in x.node.env
  {
    KeyText(x.node, x.names, x.deps, x.context, x.fingerprint)
  }

  /** The same inputs, up to the order of dependency hashes and absent optional inputs being empty. */
  ghost predicate SameInputs(x: KeyInputs, y: KeyInputs) {
    && x.node.kind == y.node.kind && x.node.content == y.node.content && x.node.env == y.node.env
    && OrEmpty(x.context) == OrEmpty(y.context) && OrEmpty(x.node.sourceHash) == OrEmpty(y.node.sourceHash)
    && multiset(x.deps) == multiset(y.deps)
    && x.node.parallelizable == y.node.parallelizable && x.node.priority == y.node.priority
    && OrEmpty(x.fingerprint) == OrEmpty(y.fingerprint)
  }

  /** Every piece of the text is as long as its counterpart, and so is every environment name and entry. */
  ghost predicate SameShape(x: KeyInputs, y: KeyInputs)
    requires ProperInputs(x) && ProperInputs(y)
  {
    && SameLengths(PiecesOf(x), PiecesOf(y)) && SameLengths(x.names, y.names)
    && SameLengths(EnvEntries(x.node.env, x.names), EnvEntries(y.node.env, y.names))
  }

  lemma EntriesPinEnv(a: map<string, string>, names: seq<string>, b: map<string, string>, names': seq<string>)
    requires SortedNames(a, names) && SortedNames(b, names') && SameLengths(names, names')
    requires forall i :: 0 <= i < |names| ==> names[i] in a
    requires forall i :: 0 <= i < |names'| ==> names'[i] in b
    requires EnvEntries(a, names) == EnvEntries(b, names')
    ensures a == b
  {
    forall i | 0 <= i < |names| ensures names[i] == names'[i] && a[names[i]] == b[names[i]] {
      var x, y := EnvEntries(a, names)[i], EnvEntries(b, names')[i];
      assert x == names[i] + "=" + a[names[i]] && y == names'[i] + "=" + b[names'[i]];
      assert names[i] == x[..|names[i]|] && names'[i] == y[..|names[i]|];
      assert a[names[i]] == x[|names[i]| + 1..] && b[names'[i]] == y[|names[i]| + 1..];
    }
    assert names == names';
    KeysAreNames(a, names);
    KeysAreNames(b, names);
  }

  lemma KeysAreNames(env: map<string, string>, names: seq<string>)
    requires SortedNames(env, names)
    ensures forall k :: k in env <==> exists i :: 0 <= i < |names| && names[i] == k
  {
    forall k ensures k in env <==> exists i :: 0 <= i < |names| && names[i] == k {
      assert k in env <==> k in multiset(env.Keys);
      assert k in multiset(names) <==> k in names;
    }
  }

  lemma SamePiecesSameInputs(x: KeyInputs, y: KeyInputs)
    requires ProperInputs(x) && ProperInputs(y) && SameShape(x, y) && PiecesOf(x) == PiecesOf(y)
    ensures SameInputs(x, y)
  {
    var a, b := PiecesOf(x), PiecesOf(y);
    assert a[0] == b[0] && a[1] == b[1] && a[2] == b[2] && a[3] == b[3] && a[4] == b[4];
    assert a[5] == b[5] && a[6] == b[6] && a[7] == b[7] && a[8] == b[8];
    JoinedPinsIff(EnvEntries(x.node.env, x.names), EnvEntries(y.node.env, y.names));
    EntriesPinEnv(x.node.env, x.names, y.node.env, y.names);
    DepsTextPinsDeps(x.deps, y.deps);
    PiecesAgreeIff(Parallel(x.node.parallelizable), Parallel(y.node.parallelizable));
    PiecesAgreeIff(Priority(x.node.priority), Priority(y.node.priority));
  }

  lemma SameInputsSamePieces(x: KeyInputs, y: KeyInputs)
    requires ProperInputs(x) && ProperInputs(y) && SameInputs(x, y)
    ensures PiecesOf(x) == PiecesOf(y) && SameShape(x, y)
  {
    NamesAreCanonical(x.node.env, x.names, y.names);
    SortedEqualIffPermuted(x.deps, y.deps);
  }

  /**
    The key pins its inputs if and only if it is known where they end: for a hash that does
    not collide on the two texts, all inputs agree exactly when the keys agree and every
    input is as long as its counterpart.
   */
  lemma KeyPinsInputsIff(H: string -> string, x: KeyInputs, y: KeyInputs)
    requires ProperInputs(x) && ProperInputs(y)
    requires H(TextOf(x)) == H(TextOf(y)) ==> TextOf(x) == TextOf(y)
    ensures SameInputs(x, y) <==> H(TextOf(x)) == H(TextOf(y)) && SameShape(x, y)
  {
    JoinedPinsIff(PiecesOf(x), PiecesOf(y));
    if SameInputs(x, y) {
      SameInputsSamePieces(x, y);
    } else if H(TextOf(x)) == H(TextOf(y)) && SameShape(x, y) {
      SamePiecesSameInputs(x, y);
    }
  }

  /** A single input of the key, all others being kept. */
  datatype Input =
    | Kind(k: string)
    | Content(c: string)
    | Context(x: Option<string>)
    | Source(s: Option<string>)
    | Parallel(p: bool)
    | Priority(n: nat)
    | Fingerprint(f: Option<string>)

  /** An optional input that is absent counts as one that is present and empty. */
  function Normal(i: Input): Input {
    match i
    case Context(x) => Context(Some(OrEmpty(x)))
    case Source(s) => Source(Some(OrEmpty(s)))
    case Fingerprint(f) => Fingerprint(Some(OrEmpty(f)))
    case _ => i
  }

  function WithInput(node: KeyedNode, i: Input): KeyedNode {
    match i
    case Kind(k) => node.(kind := k)
    case Content(c) => node.(content := c)
    case Source(s) => node.(sourceHash := s)
    case Parallel(p) => node.(parallelizable := p)
    case Priority(n) => node.(priority := n)
    case _ => node
  }

  function TextWith(
    node: KeyedNode, names: seq<string>, deps: seq<string>, context: Option<string>, fp: Option<string>, i: Input)
    : string
    requires forall i :: 0 <= i < |names| ==> names[i] in node.env
  {
    KeyText(WithInput(node, i), names, deps,
            if i.Context? then i.x else context, if i.Fingerprint? then i.f else fp)
  }

  predicate SameInput(i: Input, j: Input) {
    match i
    case Kind(_) => j.Kind?
    case Content(_) => j.Content?
    case Context(_) => j.Context?
    case Source(_) => j.Source?
    case Parallel(_) => j.Parallel?
    case Priority(_) => j.Priority?
    case Fingerprint(_) => j.Fingerprint?
  }

  function Slot(i: Input): nat {
    match i
    case Kind(_) => 0
    case Content(_) => 1
    case Context(_) => 3
    case Source(_) => 4
    case Parallel(_) => 6
    case Priority(_) => 7
    case Fingerprint(_) => 8
  }

  function PieceOf(i: Input): string {
    match i
    case Kind(k) => k
    case Content(c) => c
    case Context(x) => OrEmpty(x)
    case Source(s) => OrEmpty(s)
    case Parallel(p) => FlagText(p)
    case Priority(n) => PriorityText(n)
    case Fingerprint(f) => OrEmpty(f)
  }

  lemma PiecesAgreeIff(i: Input, j: Input)
    requires SameInput(i, j)
    ensures PieceOf(i) == PieceOf(j) <==> Normal(i) == Normal(j)
  {
    match i
    case Parallel(p) =>
      assert FlagText(p)[15] == if p then 't' else 'f';
      assert FlagText(j.p)[15] == if j.p then 't' else 'f';
    case Priority(n) =>
      assert PriorityText(n)[9..] == Decimal(n) && PriorityText(j.n)[9..] == Decimal(j.n);
      if PieceOf(i) == PieceOf(j) {
        DecimalInjective(n, j.n);
      }
    case _ =>
  }

  lemma TextWithIsPiece(
    node: KeyedNode, names: seq<string>, deps: seq<string>, context: Option<string>, fp: Option<string>, i: Input)
    requires forall i :: 0 <= i < |names| ==> names[i] in node.env
    ensures TextWith(node, names, deps, context, fp, i) ==
            Joined(KeyPieces(node, names, deps, context, fp)[Slot(i) := PieceOf(i)])
  {
    var pieces := KeyPieces(WithInput(node, i), names, deps,
                            if i.Context? then i.x else context, if i.Fingerprint? then i.f else fp);
    assert pieces == KeyPieces(node, names, deps, context, fp)[Slot(i) := PieceOf(i)];
  }

  /**
    Every input counts: changing any single one changes the text that is hashed, except
    that an absent context, source hash or fingerprint is the same as an empty one.
   */
  lemma EveryInputCounts(
    node: KeyedNode, names: seq<string>, deps: seq<string>, context: Option<string>, fp: Option<string>,
    i: Input, j: Input)
    requires (forall i :: 0 <= i < |names| ==> names[i] in node.env) && SameInput(i, j)
    ensures TextWith(node, names, deps, context, fp, i) == TextWith(node, names, deps, context, fp, j)
            <==> Normal(i) == Normal(j)
  {
    TextWithIsPiece(node, names, deps, context, fp, i);
    TextWithIsPiece(node, names, deps, context, fp, j);
    OnePieceCounts(KeyPieces(node, names, deps, context, fp), Slot(i), PieceOf(i), PieceOf(j));
    PiecesAgreeIff(i, j);
  }

  lemma {:induction false} EachNameOnce(env: map<string, string>, names: seq<string>, i: nat, j: nat)
    requires SortedNames(env, names) && i < j < |names|
    ensures names[i] != names[j]
  {
    assert names == names[..i] + [names[i]] + names[i + 1..];
    assert names[j] == names[i + 1..][j - i - 1];
    assert multiset(names)[names[i]] <= 1;
  }

  lemma OneEntryChanges(env: map<string, string>, names: seq<string>, i: nat, v: string)
    requires SortedNames(env, names) && i < |names| && forall j :: 0 <= j < |names| ==> names[j] in env
    ensures EnvEntries(env[names[i] := v], names) == EnvEntries(env, names)[i := names[i] + "=" + v]
  {
    forall j | 0 <= j < |names| && j != i ensures names[j] != names[i] {
      EachNameOnce(env, names, if i < j then i else j, if i < j then j else i);
    }
  }

  lemma EnvTextCounts(env: map<string, string>, names: seq<string>, i: nat, x: string, y: string)
    requires SortedNames(env, names) && i < |names| && forall j :: 0 <= j < |names| ==> names[j] in env
    ensures Joined(EnvEntries(env[names[i] := x], names)) == Joined(EnvEntries(env[names[i] := y], names)) <==> x == y
  {
    var head := names[i] + "=";
    OneEntryChanges(env, names, i, x);
    OneEntryChanges(env, names, i, y);
    OnePieceCounts(EnvEntries(env, names), i, head + x, head + y);
    assert (head + x)[|head|..] == x && (head + y)[|head|..] == y;
  }

  lemma EnvIsOnePiece(
    node: KeyedNode, names: seq<string>, deps: seq<string>, context: Option<string>, fp: Option<string>,
    name: string, v: string)
    requires forall j :: 0 <= j < |names| ==> names[j] in node.env
    ensures KeyPieces(node.(env := node.env[name := v]), names, deps, context, fp) ==
            KeyPieces(node, names, deps, context, fp)[2 := Joined(EnvEntries(node.env[name := v], names))]
  {
  }

  /** Changing the value of one environment variable changes the hashed text. */
  lemma EnvValuesCount(
    node: KeyedNode, names: seq<string>, deps: seq<string>, context: Option<string>, fp: Option<string>,
    i: nat, x: string, y: string)
    requires SortedNames(node.env, names) && i < |names| && forall j :: 0 <= j < |names| ==> names[j] in node.env
    ensures (KeyText(node.(env := node.env[names[i] := x]), names, deps, context, fp) ==
             KeyText(node.(env := node.env[names[i] := y]), names, deps, context, fp)) <==> x == y
  {
    var pieces := KeyPieces(node, names, deps, context, fp);
    var tx := Joined(EnvEntries(node.env[names[i] := x], names));
    var ty := Joined(EnvEntries(node.env[names[i] := y], names));
    EnvIsOnePiece(node, names, deps, context, fp, names[i], x);
    EnvIsOnePiece(node, names, deps, context, fp, names[i], y);
    OnePieceCounts(pieces, 2, tx, ty);
    EnvTextCounts(node.env, names, i, x, y);
  }
}
