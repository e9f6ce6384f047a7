/**
  The metadata database of the cache server: three SQL tables, the statements that
  change them, and what every sequence of statements keeps true of the layer
  reference counts.

  Declared foreign keys are taken as enforced: inserting a mapping row for a layer
  that has no row fails and rolls the transaction back, and a layer row that is still
  mapped cannot be deleted.
 */
module Metadata {
  import opened Common

  type Hash = string

  datatype Entry = Entry(path: string, size: nat, createdAt: int, lastUsed: int, hitCount: nat, layered: bool)

  datatype Layer = Layer(path: string, size: nat, createdAt: int, lastUsed: int, refCount: int)

  datatype Row = Row(node: Hash, layer: Hash, position: nat)

  /** `rows` is node_to_layers in insertion order; `Positioned` says why that is also position order. */
  datatype Tables = Tables(entries: map<Hash, Entry>, layers: map<Hash, Layer>, rows: seq<Row>)

  const EMPTY := Tables(map[], map[], [])

  // ----- queries -------------------------------------------------------------

  /** SELECT ... WHERE node_hash = node */
  function RowsOf(rows: seq<Row>, node: Hash): seq<Row> {
    if rows == [] then []
    else if rows[|rows| - 1].node == node then RowsOf(rows[..|rows| - 1], node) + [rows[|rows| - 1]]
    else RowsOf(rows[..|rows| - 1], node)
  }

  /** What DELETE ... WHERE node_hash = node leaves. */
  function RowsExcept(rows: seq<Row>, node: Hash): seq<Row> {
    if rows == [] then []
    else if rows[|rows| - 1].node == node then RowsExcept(rows[..|rows| - 1], node)
    else RowsExcept(rows[..|rows| - 1], node) + [rows[|rows| - 1]]
  }

  /** Number of mapping rows that name a layer. */
  function CountLayer(rows: seq<Row>, layer: Hash): nat {
    if rows == [] then 0
    else CountLayer(rows[..|rows| - 1], layer) + (if rows[|rows| - 1].layer == layer then 1 else 0)
  }

  function LayersIn(rows: seq<Row>): seq<Hash> {
    seq(|rows|, i requires 0 <= i < |rows| => rows[i].layer)
  }

  function NewRows(node: Hash, layers: seq<Hash>): seq<Row> {
    seq(|layers|, i requires 0 <= i < |layers| => Row(node, layers[i], i))
  }

  /** The ordered layer list of a node; None only for a node without an entry. */
  function NodeLayers(t: Tables, node: Hash): Option<seq<Hash>> {
    var rows := RowsOf(t.rows, node);
    if rows == [] && node !in t.entries then None else Some(LayersIn(rows))
  }

  // ----- statements ----------------------------------------------------------

  datatype Op =
    | Insert(hash: Hash, path: string, size: nat, now: int)
    | InsertLayer(hash: Hash, path: string, size: nat, now: int)
    | Register(node: Hash, size: nat, layers: seq<Hash>, now: int)
    | Touch(hash: Hash, now: int)
    | Delete(hash: Hash)
    | CollectUnused

  function UpsertEntry(entries: map<Hash, Entry>, hash: Hash, initial: Entry): map<Hash, Entry> {
    if hash in entries then
      entries[hash := entries[hash].(lastUsed := initial.lastUsed, hitCount := entries[hash].hitCount + 1)]
    else
      entries[hash := initial]
  }

  function UpsertLayer(layers: map<Hash, Layer>, hash: Hash, initial: Layer): map<Hash, Layer> {
    if hash in layers then layers[hash := layers[hash].(lastUsed := initial.lastUsed)] else layers[hash := initial]
  }

  /** One `ref_count + 1` per position of the list. */
  function Bumped(layers: map<Hash, Layer>, list: seq<Hash>): map<Hash, Layer> {
    map l | l in layers :: layers[l].(refCount := layers[l].refCount + multiset(list)[l])
  }

  /** One `ref_count - 1` per distinct layer among the rows. */
  function Released(layers: map<Hash, Layer>, rows: seq<Row>): map<Hash, Layer> {
    map l | l in layers ::
      if CountLayer(rows, l) > 0 then layers[l].(refCount := layers[l].refCount - 1) else layers[l]
  }

  predicate Unused(t: Tables, l: Hash) {
    l in t.layers && t.layers[l].refCount <= 0
  }

  /** The layer foreign key lets a registration commit only if every listed layer has a row. */
  predicate Accepts(t: Tables, list: seq<Hash>) {
    forall l :: l in list ==> l in t.layers
  }

  function Apply(t: Tables, op: Op): Tables {
    match op
    case Insert(h, path, size, now) =>
      t.(entries := UpsertEntry(t.entries, h, Entry(path, size, now, now, 0, false)))
    case InsertLayer(h, path, size, now) =>
      t.(layers := UpsertLayer(t.layers, h, Layer(path, size, now, now, 0)))
    case Register(n, size, list, now) =>
      if Accepts(t, list) then
        Tables(UpsertEntry(t.entries, n, Entry("", size, now, now, 0, true)),
               Bumped(t.layers, list),
               RowsExcept(t.rows, n) + NewRows(n, list))
      else t
    case Touch(h, now) =>
      if h in t.entries then
        t.(entries := t.entries[h := t.entries[h].(lastUsed := now, hitCount := t.entries[h].hitCount + 1)])
      else t
    case Delete(h) =>
      Tables(t.entries - {h}, Released(t.layers, RowsOf(t.rows, h)), RowsExcept(t.rows, h))
    case CollectUnused =>
      t.(layers := map l | l in t.layers && !(Unused(t, l) && CountLayer(t.rows, l) == 0) :: t.layers[l])
  }

  function Run(ops: seq<Op>): Tables {
    if ops == [] then EMPTY else Apply(Run(ops[..|ops| - 1]), ops[|ops| - 1])
  }

  // ----- counting lemmas -----------------------------------------------------

  lemma {:induction false} CountConcat(a: seq<Row>, b: seq<Row>, l: Hash)
    ensures CountLayer(a + b, l) == CountLayer(a, l) + CountLayer(b, l)
  {
    if b == [] {
      assert a + b == a;
    } else {
      assert (a + b)[..|a + b| - 1] == a + b[..|b| - 1];
      CountConcat(a, b[..|b| - 1], l);
    }
  }

  lemma {:induction false} CountSplitsByNode(rows: seq<Row>, node: Hash, l: Hash)
    ensures CountLayer(rows, l) == CountLayer(RowsOf(rows, node), l) + CountLayer(RowsExcept(rows, node), l)
  {
    if rows != [] {
      var init, last := rows[..|rows| - 1], rows[|rows| - 1];
      CountSplitsByNode(init, node, l);
      CountConcat(RowsOf(init, node), [last], l);
      CountConcat(RowsExcept(init, node), [last], l);
      assert CountLayer([last], l) == if last.layer == l then 1 else 0 by { assert [last][..0] == []; }
    }
  }

  lemma {:induction false} CountNewRows(node: Hash, list: seq<Hash>, l: Hash)
    ensures CountLayer(NewRows(node, list), l) == multiset(list)[l]
  {
    if list != [] {
      var init := list[..|list| - 1];
      CountNewRows(node, init, l);
      assert NewRows(node, list)[..|list| - 1] == NewRows(node, init);
      assert list == init + [list[|list| - 1]];
    }
  }

  lemma {:induction false} CountPositiveIffNamed(rows: seq<Row>, l: Hash)
    ensures CountLayer(rows, l) > 0 <==> exists r :: r in rows && r.layer == l
  {
    if rows != [] {
      var init, last := rows[..|rows| - 1], rows[|rows| - 1];
      CountPositiveIffNamed(init, l);
      assert rows == init + [last];
    }
  }

  // ----- leak accounting -----------------------------------------------------

  /**
    References to `l` that one statement strands: a re-registration drops the node's
    old rows without releasing any of them, a deletion releases a layer once however
    often the node listed it, and losing the layer row resets the account.
   */
  function LeakAfter(t: Tables, op: Op, l: Hash, leak: nat): nat {
    match op
    case Register(n, _, list, _) =>
      if Accepts(t, list) then leak + CountLayer(RowsOf(t.rows, n), l) else leak
    case Delete(n) =>
      var c := CountLayer(RowsOf(t.rows, n), l);
      if c > 0 then leak + c - 1 else leak
    case CollectUnused =>
      if l in Apply(t, op).layers then leak else 0
    case _ => leak
  }

  function Leak(ops: seq<Op>, l: Hash): nat {
    if ops == [] then 0
    else LeakAfter(Run(ops[..|ops| - 1]), ops[|ops| - 1], l, Leak(ops[..|ops| - 1], l))
  }

  /** The account balances: stored count = mapping rows + stranded references. */
  ghost predicate Balanced(t: Tables, l: Hash, leak: nat) {
    if l in t.layers then t.layers[l].refCount == CountLayer(t.rows, l) + leak
    else CountLayer(t.rows, l) == 0 && leak == 0
  }

  lemma StepKeepsBalance(t: Tables, op: Op, l: Hash, leak: nat)
    requires Balanced(t, l, leak)
    ensures Balanced(Apply(t, op), l, LeakAfter(t, op, l, leak))
  {
    match op
    case Register(n, _, list, _) =>
      if Accepts(t, list) {
        CountSplitsByNode(t.rows, n, l);
        CountConcat(RowsExcept(t.rows, n), NewRows(n, list), l);
        CountNewRows(n, list, l);
        assert l !in t.layers ==> l !in list;
      }
    case Delete(n) =>
      CountSplitsByNode(t.rows, n, l);
    case _ =>
  }

  /**
    Exact leak accounting: after every sequence of statements, each layer's stored
    count is its number of mapping rows plus what re-registrations and deletions of
    nodes with repeated layers stranded since its row was created; a layer without a
    row is mapped nowhere.
   */
  lemma {:induction false} LeakAccounting(ops: seq<Op>, l: Hash)
    ensures Balanced(Run(ops), l, Leak(ops, l))
  {
    if ops != [] {
      LeakAccounting(ops[..|ops| - 1], l);
      StepKeepsBalance(Run(ops[..|ops| - 1]), ops[|ops| - 1], l, Leak(ops[..|ops| - 1], l));
    }
  }

  /** Safety: counts never undershoot the rows, and every mapping row's layer has a row. */
  lemma RefCountsCoverMappings(ops: seq<Op>)
    ensures forall l :: l in Run(ops).layers ==> Run(ops).layers[l].refCount >= CountLayer(Run(ops).rows, l)
    ensures forall r :: r in Run(ops).rows ==> r.layer in Run(ops).layers
  {
    forall l ensures l in Run(ops).layers ==> Run(ops).layers[l].refCount >= CountLayer(Run(ops).rows, l) {
      LeakAccounting(ops, l);
    }
    forall r | r in Run(ops).rows ensures r.layer in Run(ops).layers {
      LeakAccounting(ops, r.layer);
      CountPositiveIffNamed(Run(ops).rows, r.layer);
    }
  }

  /** Collection removes exactly the layers that nothing maps and nothing ever stranded. */
  lemma CollectedExactly(ops: seq<Op>, l: Hash)
    requires l in Run(ops).layers
    ensures l !in Apply(Run(ops), CollectUnused).layers <==> CountLayer(Run(ops).rows, l) == 0 && Leak(ops, l) == 0
  {
    LeakAccounting(ops, l);
  }

  lemma StrandedStepSurvives(t: Tables, op: Op, l: Hash, leak: nat)
    requires Balanced(t, l, leak) && leak > 0
    ensures l in Apply(t, op).layers && LeakAfter(t, op, l, leak) >= leak
  {
  }

  /** A stranded reference is never recovered: such a layer survives every later statement. */
  lemma {:induction false} LeaksAreForever(ops: seq<Op>, more: seq<Op>, l: Hash)
    requires Leak(ops, l) > 0
    ensures l in Run(ops + more).layers && Leak(ops + more, l) >= Leak(ops, l)
  {
    LeakAccounting(ops, l);
    if more == [] {
      assert ops + more == ops;
    } else {
      var init, all := ops + more[..|more| - 1], ops + more;
      assert all[..|all| - 1] == init;
      LeaksAreForever(ops, more[..|more| - 1], l);
      LeakAccounting(init, l);
      StrandedStepSurvives(Run(init), all[|all| - 1], l, Leak(init, l));
    }
  }

  ghost predicate Exact(t: Tables, l: Hash) {
    l in t.layers && t.layers[l].refCount == CountLayer(t.rows, l)
  }

  /** The statement drops no row of `l` unreleased: checked on the tables before it. */
  predicate ReleasesWhatItDrops(t: Tables, op: Op, l: Hash) {
    match op
    case Register(n, _, list, _) => Accepts(t, list) ==> CountLayer(RowsOf(t.rows, n), l) == 0
    case Delete(n) => CountLayer(RowsOf(t.rows, n), l) <= 1
    case _ => true
  }

  /** An exact count stays exact exactly when the statement releases what it drops. */
  lemma StaysExactIff(ops: seq<Op>, op: Op, l: Hash)
    requires Exact(Run(ops), l) && l in Apply(Run(ops), op).layers
    ensures Exact(Apply(Run(ops), op), l) <==> ReleasesWhatItDrops(Run(ops), op, l)
  {
    LeakAccounting(ops, l);
    StepKeepsBalance(Run(ops), op, l, Leak(ops, l));
  }

  lemma RunSnoc(ops: seq<Op>, op: Op)
    ensures Run(ops + [op]) == Apply(Run(ops), op)
  {
    assert (ops + [op])[..|ops|] == ops;
  }

  lemma LeakSnoc(ops: seq<Op>, op: Op, l: Hash)
    ensures Leak(ops + [op], l) == LeakAfter(Run(ops), op, l, Leak(ops, l))
  {
    assert (ops + [op])[..|ops|] == ops;
  }

  lemma RegisteredRows(t: Tables, n: Hash, size: nat, list: seq<Hash>, now: int)
    requires Accepts(t, list)
    ensures var t' := Apply(t, Register(n, size, list, now));
            && t'.layers.Keys == t.layers.Keys && t.entries.Keys <= t'.entries.Keys
            && RowsOf(t'.rows, n) == NewRows(n, list)
  {
    RowsAfterRegister(t.rows, n, list, n);
  }

  /** What a run knows after one more accepted registration of a node. */
  ghost predicate HasRegistered(ops: seq<Op>, once: seq<Op>, n: Hash, list: seq<Hash>, l: Hash) {
    && Run(once).layers.Keys == Run(ops).layers.Keys
    && CountLayer(RowsOf(Run(once).rows, n), l) == multiset(list)[l]
    && Leak(once, l) == Leak(ops, l) + CountLayer(RowsOf(Run(ops).rows, n), l)
  }

  lemma AfterRegistering(ops: seq<Op>, n: Hash, size: nat, list: seq<Hash>, now: int, l: Hash)
    requires Accepts(Run(ops), list)
    ensures HasRegistered(ops, ops + [Register(n, size, list, now)], n, list, l)
  {
    var op := Register(n, size, list, now);
    RunSnoc(ops, op);
    LeakSnoc(ops, op, l);
    RegisteredRows(Run(ops), n, size, list, now);
    CountNewRows(n, list, l);
  }

  lemma AfterDeleting(ops: seq<Op>, n: Hash, l: Hash)
    ensures Leak(ops + [Delete(n)], l) >= CountLayer(RowsOf(Run(ops).rows, n), l) - 1
  {
    LeakSnoc(ops, Delete(n), l);
  }

  /** At least `amount` references to the layer are stranded, so its count is that much too high. */
  ghost predicate Stranded(ops: seq<Op>, l: Hash, amount: nat) {
    && Leak(ops, l) >= amount && l in Run(ops).layers
    && Run(ops).layers[l].refCount >= CountLayer(Run(ops).rows, l) + amount
  }

  lemma LeakStrands(ops: seq<Op>, l: Hash, amount: nat)
    requires Leak(ops, l) >= amount > 0
    ensures Stranded(ops, l, amount)
  {
    LeakAccounting(ops, l);
  }

  /** Registering a node again, from any state, strands every reference its first list made. */
  lemma ReRegistrationStrands(ops: seq<Op>, n: Hash, size: nat, first: seq<Hash>, again: seq<Hash>, now: int, l: Hash)
    requires Accepts(Run(ops), first) && Accepts(Run(ops), again) && l in first
    ensures Stranded(ops + [Register(n, size, first, now)] + [Register(n, size, again, now)], l, multiset(first)[l])
    ensures multiset(first)[l] > 0
  {
    var once := ops + [Register(n, size, first, now)];
    AfterRegistering(ops, n, size, first, now, l);
    AfterRegistering(once, n, size, again, now, l);
    LeakStrands(once + [Register(n, size, again, now)], l, multiset(first)[l]);
  }

  /** Deleting a node strands all but one of the references its list made to a layer. */
  lemma DeletionStrandsRepeats(ops: seq<Op>, n: Hash, size: nat, list: seq<Hash>, now: int, l: Hash)
    requires Accepts(Run(ops), list) && multiset(list)[l] > 1
    ensures Stranded(ops + [Register(n, size, list, now)] + [Delete(n)], l, multiset(list)[l] - 1)
  {
    var once := ops + [Register(n, size, list, now)];
    AfterRegistering(ops, n, size, list, now, l);
    AfterDeleting(once, n, l);
    LeakStrands(once + [Delete(n)], l, multiset(list)[l] - 1);
  }

  /** No registration replaces a live node's rows, and no list names a layer twice. */
  ghost predicate Tidy(ops: seq<Op>) {
    forall i :: 0 <= i < |ops| && ops[i].Register? ==>
      (Accepts(Run(ops[..i]), ops[i].layers) ==> RowsOf(Run(ops[..i]).rows, ops[i].node) == []) &&
      (forall l :: multiset(ops[i].layers)[l] <= 1)
  }

  lemma {:induction false} TidyRowsAreUnrepeated(ops: seq<Op>, n: Hash, l: Hash)
    requires Tidy(ops)
    ensures CountLayer(RowsOf(Run(ops).rows, n), l) <= 1
  {
    if ops != [] {
      var init, op := ops[..|ops| - 1], ops[|ops| - 1];
      assert forall i :: 0 <= i < |init| ==> init[..i] == ops[..i] && init[i] == ops[i];
      TidyRowsAreUnrepeated(init, n, l);
      match op
      case Register(m, _, list, _) =>
        if Accepts(Run(init), list) {
          RowsAfterRegister(Run(init).rows, m, list, n);
          CountNewRows(m, list, l);
        }
      case Delete(m) =>
        RowsOfExcept(Run(init).rows, m, n);
      case _ =>
    }
  }

  /** Under tidy use nothing leaks, so every stored count is exact. */
  lemma {:induction false} TidyCountsAreExact(ops: seq<Op>, l: Hash)
    requires Tidy(ops)
    ensures Leak(ops, l) == 0
    ensures l in Run(ops).layers ==> Run(ops).layers[l].refCount == CountLayer(Run(ops).rows, l)
  {
    if ops != [] {
      var init, op := ops[..|ops| - 1], ops[|ops| - 1];
      assert forall i :: 0 <= i < |init| ==> init[..i] == ops[..i] && init[i] == ops[i];
      TidyCountsAreExact(init, l);
      if op.Delete? {
        TidyRowsAreUnrepeated(init, op.hash, l);
      }
    }
    LeakAccounting(ops, l);
  }

  // ----- usage of entries and layers ------------------------------------------------

  /** The statement inserts the entry, or refreshes it if it is there. */
  predicate Brings(t: Tables, op: Op, h: Hash) {
    (op.Insert? && op.hash == h) || (op.Register? && op.node == h && Accepts(t, op.layers))
  }

  /** The statement uses an entry that is there. */
  predicate Uses(t: Tables, op: Op, h: Hash) {
    Brings(t, op, h) || (op.Touch? && op.hash == h)
  }

  function TimeOf(op: Op): int {
    if op.Delete? || op.CollectUnused? then 0 else op.now
  }

  /** The `c`-th statement created the entry, and nothing deleted it since. */
  ghost predicate EntrySince(ops: seq<Op>, c: nat, h: Hash) {
    && c < |ops| && Brings(Run(ops[..c]), ops[c], h) && h !in Run(ops[..c]).entries
    && forall i :: c < i < |ops| ==> ops[i] != Delete(h)
  }

  function UsesSince(ops: seq<Op>, c: nat, h: Hash): nat {
    if |ops| <= c + 1 then 0
    else
      var init := ops[..|ops| - 1];
      UsesSince(init, c, h) + if Uses(Run(init), ops[|ops| - 1], h) then 1 else 0
  }

  function LastUse(ops: seq<Op>, c: nat, h: Hash): int
    requires c < |ops|
  {
    var init := ops[..|ops| - 1];
    if |ops| == c + 1 || Uses(Run(init), ops[|ops| - 1], h) then TimeOf(ops[|ops| - 1]) else LastUse(init, c, h)
  }

  /** What the entry's row must hold, read off the run. */
  ghost predicate EntryAsUsed(e: Entry, ops: seq<Op>, c: nat, h: Hash)
    requires c < |ops|
  {
    && e.size == (if ops[c].Insert? || ops[c].Register? then ops[c].size else 0)
    && e.path == (if ops[c].Insert? then ops[c].path else "") && e.layered == ops[c].Register?
    && e.createdAt == TimeOf(ops[c]) && e.lastUsed == LastUse(ops, c, h) && e.hitCount == UsesSince(ops, c, h)
  }

  lemma EntryStep(t: Tables, op: Op, h: Hash)
    ensures var t' := Apply(t, op);
            && (h in t'.entries <==> (h in t.entries && op != Delete(h)) || Brings(t, op, h))
            && (h in t.entries && op != Delete(h) ==>
                  t'.entries[h] == if Uses(t, op, h)
                                   then t.entries[h].(lastUsed := TimeOf(op), hitCount := t.entries[h].hitCount + 1)
                                   else t.entries[h])
  {
  }

  lemma EntryKept(ops: seq<Op>, c: nat, h: Hash)
    requires ops != [] && EntrySince(ops, c, h) && c < |ops| - 1
    ensures EntrySince(ops[..|ops| - 1], c, h)
  {
    assert ops[..|ops| - 1][..c] == ops[..c];
  }

  lemma EntryCreated(ops: seq<Op>, h: Hash)
    requires ops != [] && EntrySince(ops, |ops| - 1, h)
    ensures h in Run(ops).entries && EntryAsUsed(Run(ops).entries[h], ops, |ops| - 1, h)
  {
  }

  lemma {:induction false} EntryUsage(ops: seq<Op>, h: Hash, c: nat)
    requires EntrySince(ops, c, h)
    ensures h in Run(ops).entries && EntryAsUsed(Run(ops).entries[h], ops, c, h)
  {
    if c == |ops| - 1 {
      EntryCreated(ops, h);
    } else {
      var init := ops[..|ops| - 1];
      EntryKept(ops, c, h);
      EntryUsage(init, h, c);
      EntryStep(Run(init), ops[|ops| - 1], h);
    }
  }

  lemma EntryStays(ops: seq<Op>, c: nat, h: Hash)
    requires ops != [] && EntrySince(ops[..|ops| - 1], c, h) && ops[|ops| - 1] != Delete(h)
    ensures EntrySince(ops, c, h)
  {
    var init := ops[..|ops| - 1];
    assert init[..c] == ops[..c] && init[c] == ops[c];
    forall i | c < i < |ops| ensures ops[i] != Delete(h) {
      assert i < |init| ==> init[i] == ops[i];
    }
  }

  lemma {:induction false} EntryOrigin(ops: seq<Op>, h: Hash)
    requires h in Run(ops).entries
    ensures exists c: nat :: EntrySince(ops, c, h)
  {
    var init := ops[..|ops| - 1];
    EntryStep(Run(init), ops[|ops| - 1], h);
    if h in Run(init).entries {
      EntryOrigin(init, h);
      var c: nat :| EntrySince(init, c, h);
      EntryStays(ops, c, h);
    } else {
      assert EntrySince(ops, |ops| - 1, h);
    }
  }

  /**
    Over every run an entry is there exactly when some statement created it and none has
    deleted it since; it then has that statement's size and creation time, one hit per later
    use, and the time of the latest one.
   */
  lemma EntryHistory(ops: seq<Op>, h: Hash)
    ensures h in Run(ops).entries <==> exists c: nat :: EntrySince(ops, c, h)
    ensures forall c: nat :: EntrySince(ops, c, h) ==>
      h in Run(ops).entries && EntryAsUsed(Run(ops).entries[h], ops, c, h)
  {
    if h in Run(ops).entries {
      EntryOrigin(ops, h);
    }
    forall c: nat | EntrySince(ops, c, h)
      ensures h in Run(ops).entries && EntryAsUsed(Run(ops).entries[h], ops, c, h)
    {
      EntryUsage(ops, h, c);
    }
  }

  /** The `c`-th statement created the layer's row, which has been there ever since. */
  ghost predicate LayerSince(ops: seq<Op>, c: nat, l: Hash) {
    && c < |ops| && ops[c].InsertLayer? && ops[c].hash == l && l !in Run(ops[..c]).layers
    && forall i: nat :: c < i <= |ops| ==> HasLayer(ops, i, l)
  }

  /** After the first `i` statements the layer has a row. */
  ghost predicate HasLayer(ops: seq<Op>, i: nat, l: Hash)
    requires i <= |ops|
  {
    l in Run(ops[..i]).layers
  }

  lemma HasLayerWithin(ops: seq<Op>, i: nat, l: Hash)
    requires i < |ops|
    ensures HasLayer(ops[..|ops| - 1], i, l) <==> HasLayer(ops, i, l)
  {
    assert ops[..|ops| - 1][..i] == ops[..i];
  }

  lemma HasLayerAtEnd(ops: seq<Op>, l: Hash)
    ensures HasLayer(ops, |ops|, l) <==> l in Run(ops).layers
  {
    assert ops[..|ops|] == ops;
  }

  function LastInsert(ops: seq<Op>, c: nat, l: Hash): int
    requires c < |ops|
  {
    var op := ops[|ops| - 1];
    if |ops| == c + 1 || (op.InsertLayer? && op.hash == l) then TimeOf(op) else LastInsert(ops[..|ops| - 1], c, l)
  }

  ghost predicate LayerAsInserted(layer: Layer, ops: seq<Op>, c: nat, l: Hash)
    requires c < |ops| && ops[c].InsertLayer?
  {
    && layer.path == ops[c].path && layer.size == ops[c].size && layer.createdAt == ops[c].now
    && layer.lastUsed == LastInsert(ops, c, l)
  }

  lemma LayerStep(t: Tables, op: Op, l: Hash)
    requires l in t.layers && l in Apply(t, op).layers
    ensures var before, after := t.layers[l], Apply(t, op).layers[l];
            && after.path == before.path && after.size == before.size && after.createdAt == before.createdAt
            && after.lastUsed == if op.InsertLayer? && op.hash == l then op.now else before.lastUsed
  {
  }

  lemma LayerKept(ops: seq<Op>, c: nat, l: Hash)
    requires ops != [] && LayerSince(ops, c, l) && c < |ops| - 1
    ensures LayerSince(ops[..|ops| - 1], c, l) && l in Run(ops[..|ops| - 1]).layers && l in Run(ops).layers
  {
    var init := ops[..|ops| - 1];
    assert init[c] == ops[c] && init[..c] == ops[..c];
    forall i: nat | c < i <= |init| ensures HasLayer(init, i, l) {
      HasLayerWithin(ops, i, l);
    }
    HasLayerAtEnd(init, l);
    HasLayerAtEnd(ops, l);
  }

  lemma LayerStays(ops: seq<Op>, c: nat, l: Hash)
    requires ops != [] && LayerSince(ops[..|ops| - 1], c, l) && l in Run(ops).layers
    ensures LayerSince(ops, c, l)
  {
    var init := ops[..|ops| - 1];
    assert init[c] == ops[c] && init[..c] == ops[..c];
    forall i: nat | c < i <= |ops| ensures HasLayer(ops, i, l) {
      if i == |ops| {
        HasLayerAtEnd(ops, l);
      } else {
        HasLayerWithin(ops, i, l);
      }
    }
  }

  lemma {:induction false} LayerOrigin(ops: seq<Op>, l: Hash)
    requires l in Run(ops).layers
    ensures exists c: nat :: LayerSince(ops, c, l)
  {
    var init := ops[..|ops| - 1];
    if l in Run(init).layers {
      LayerOrigin(init, l);
      var c: nat :| LayerSince(init, c, l);
      LayerStays(ops, c, l);
    } else {
      HasLayerAtEnd(ops, l);
      assert LayerSince(ops, |ops| - 1, l);
    }
  }

  lemma {:induction false} LayerUploads(ops: seq<Op>, l: Hash, c: nat)
    requires LayerSince(ops, c, l)
    ensures l in Run(ops).layers && LayerAsInserted(Run(ops).layers[l], ops, c, l)
  {
    var init := ops[..|ops| - 1];
    if c < |ops| - 1 {
      LayerKept(ops, c, l);
      LayerUploads(init, l, c);
      LayerStep(Run(init), ops[|ops| - 1], l);
    }
  }

  /** A layer's row keeps what the statement that created it wrote, and the time of its latest upload. */
  lemma LayerHistory(ops: seq<Op>, l: Hash)
    ensures l in Run(ops).layers <==> exists c: nat :: LayerSince(ops, c, l)
    ensures forall c: nat :: LayerSince(ops, c, l) ==>
      l in Run(ops).layers && LayerAsInserted(Run(ops).layers[l], ops, c, l)
  {
    if l in Run(ops).layers {
      LayerOrigin(ops, l);
    }
    forall c: nat | LayerSince(ops, c, l)
      ensures l in Run(ops).layers && LayerAsInserted(Run(ops).layers[l], ops, c, l)
    {
      LayerUploads(ops, l, c);
    }
  }

  // ----- the mapping table, node by node ------------------------------------

  lemma {:induction false} RowsOfConcat(a: seq<Row>, b: seq<Row>, n: Hash)
    ensures RowsOf(a + b, n) == RowsOf(a, n) + RowsOf(b, n)
  {
    if b == [] {
      assert a + b == a;
    } else {
      assert (a + b)[..|a + b| - 1] == a + b[..|b| - 1];
      RowsOfConcat(a, b[..|b| - 1], n);
    }
  }

  lemma {:induction false} RowsOfExcept(rows: seq<Row>, m: Hash, n: Hash)
    ensures RowsOf(RowsExcept(rows, m), n) == if m == n then [] else RowsOf(rows, n)
  {
    if rows != [] {
      var init, last := rows[..|rows| - 1], rows[|rows| - 1];
      RowsOfExcept(init, m, n);
      RowsOfConcat(RowsExcept(init, m), [last], n);
      assert RowsOf([last], n) == if last.node == n then [last] else [] by { assert [last][..0] == []; }
    }
  }

  lemma NewRowsSnoc(node: Hash, list: seq<Hash>)
    requires list != []
    ensures var n := |list| - 1;
            NewRows(node, list) == NewRows(node, list[..n]) + [Row(node, list[n], n)]
  {
  }

  lemma RowsOfSnoc(rows: seq<Row>, r: Row, n: Hash)
    ensures RowsOf(rows + [r], n) == if r.node == n then RowsOf(rows, n) + [r] else RowsOf(rows, n)
  {
    assert (rows + [r])[..|rows|] == rows;
  }

  lemma {:induction false} RowsOfNewRows(m: Hash, list: seq<Hash>, n: Hash)
    ensures RowsOf(NewRows(m, list), n) == if m == n then NewRows(m, list) else []
  {
    if list != [] {
      var k := |list| - 1;
      RowsOfNewRows(m, list[..k], n);
      NewRowsSnoc(m, list);
      RowsOfSnoc(NewRows(m, list[..k]), Row(m, list[k], k), n);
    }
  }

  lemma RowsAfterRegister(rows: seq<Row>, m: Hash, list: seq<Hash>, n: Hash)
    ensures RowsOf(RowsExcept(rows, m) + NewRows(m, list), n) == if m == n then NewRows(m, list) else RowsOf(rows, n)
  {
    RowsOfConcat(RowsExcept(rows, m), NewRows(m, list), n);
    RowsOfExcept(rows, m, n);
    RowsOfNewRows(m, list, n);
  }

  /** A node's rows sit in the table in position order, numbered from 0. */
  ghost predicate Positioned(rows: seq<Row>) {
    forall n, i :: 0 <= i < |RowsOf(rows, n)| ==> RowsOf(rows, n)[i].position == i
  }

  /** Every row belongs to a node that has an entry (the node foreign key). */
  ghost predicate NodesExist(t: Tables) {
    forall n :: RowsOf(t.rows, n) != [] ==> n in t.entries
  }

  lemma StepKeepsPositions(t: Tables, op: Op, n: Hash)
    requires Positioned(t.rows) && NodesExist(t)
    ensures forall i :: 0 <= i < |RowsOf(Apply(t, op).rows, n)| ==> RowsOf(Apply(t, op).rows, n)[i].position == i
    ensures RowsOf(Apply(t, op).rows, n) != [] ==> n in Apply(t, op).entries
  {
    match op
    case Register(m, _, list, _) =>
      if Accepts(t, list) {
        RowsAfterRegister(t.rows, m, list, n);
      }
    case Delete(m) => RowsOfExcept(t.rows, m, n);
    case _ =>
  }

  lemma {:induction false} RunsKeepPositions(ops: seq<Op>)
    ensures Positioned(Run(ops).rows) && NodesExist(Run(ops))
  {
    if ops != [] {
      var t, op := Run(ops[..|ops| - 1]), ops[|ops| - 1];
      RunsKeepPositions(ops[..|ops| - 1]);
      forall n { StepKeepsPositions(t, op, n); }
    }
  }

  /**
    Reading back a registration: an accepted registration is what the node reads as,
    an empty list included, a refused one changes nothing, and no other node's list moves.
   */
  lemma RegisterThenRead(t: Tables, n: Hash, size: nat, list: seq<Hash>, now: int, other: Hash)
    ensures Accepts(t, list) ==> NodeLayers(Apply(t, Register(n, size, list, now)), n) == Some(list)
    ensures !Accepts(t, list) ==> Apply(t, Register(n, size, list, now)) == t
    ensures other != n ==> NodeLayers(Apply(t, Register(n, size, list, now)), other) == NodeLayers(t, other)
  {
    if Accepts(t, list) {
      var t' := Apply(t, Register(n, size, list, now));
      assert RowsOf(t'.rows, n) == NewRows(n, list) by { RowsAfterRegister(t.rows, n, list, n); }
      assert LayersIn(NewRows(n, list)) == list;
      if other != n {
        assert RowsOf(t'.rows, other) == RowsOf(t.rows, other) by { RowsAfterRegister(t.rows, n, list, other); }
      }
    }
  }

  /** A deleted node reads as unknown, and no other node's list moves. */
  lemma DeleteThenRead(t: Tables, n: Hash, other: Hash)
    ensures NodeLayers(Apply(t, Delete(n)), n) == None
    ensures other != n ==> NodeLayers(Apply(t, Delete(n)), other) == NodeLayers(t, other)
  {
    RowsOfExcept(t.rows, n, n);
    RowsOfExcept(t.rows, n, other);
  }

  lemma BumpOneMore(layers: map<Hash, Layer>, list: seq<Hash>, l: Hash)
    requires l in layers
    ensures var b := Bumped(layers, list);
            b[l := b[l].(refCount := b[l].refCount + 1)] == Bumped(layers, list + [l])
  {
  }

  // ----- the store -----------------------------------------------------------

  method DeleteRows(rows: seq<Row>, node: Hash) returns (kept: seq<Row>)
    ensures kept == RowsExcept(rows, node)
  {
    kept := [];
    for i := 0 to |rows|
      invariant kept == RowsExcept(rows[..i], node)
    {
      assert rows[..i + 1][..i] == rows[..i];
      if rows[i].node != node {
        kept := kept + [rows[i]];
      }
    }
    assert rows[..|rows|] == rows;
  }

  /** The loop of a registration, on the transaction's own view of two tables. */
  method MapLayers(layers: map<Hash, Layer>, rows: seq<Row>, node: Hash, list: seq<Hash>)
    returns (ok: bool, txLayers: map<Hash, Layer>, txRows: seq<Row>)
    ensures ok == forall l :: l in list ==> l in layers
    ensures ok ==> txLayers == Bumped(layers, list) && txRows == rows + NewRows(node, list)
  {
    txLayers, txRows := layers, rows;
    for pos := 0 to |list|
      invariant forall l :: l in list[..pos] ==> l in layers
      invariant txRows == rows + NewRows(node, list[..pos])
      invariant txLayers == Bumped(layers, list[..pos])
    {
      var layer := list[pos];
      if layer !in txLayers {
        return false, txLayers, txRows;
      }
      assert list[..pos + 1] == list[..pos] + [layer];
      assert NewRows(node, list[..pos + 1]) == NewRows(node, list[..pos]) + [Row(node, layer, pos)];
      BumpOneMore(layers, list[..pos], layer);
      txRows := txRows + [Row(node, layer, pos)];
      txLayers := txLayers[layer := txLayers[layer].(refCount := txLayers[layer].refCount + 1)];
    }
    assert list[..|list|] == list;
    ok := true;
  }

  /** SELECT DISTINCT layer_hash ... WHERE node_hash = node */
  method LayersMappedBy(rows: seq<Row>, node: Hash) returns (found: set<Hash>)
    ensures forall l :: l in found <==> CountLayer(RowsOf(rows, node), l) > 0
  {
    found := {};
    for i := 0 to |rows|
      invariant forall l :: l in found <==> CountLayer(RowsOf(rows[..i], node), l) > 0
    {
      assert rows[..i + 1][..i] == rows[..i];
      if rows[i].node == node {
        forall l {
          CountSnoc(RowsOf(rows[..i], node), rows[i], l);
        }
        found := found + {rows[i].layer};
      }
    }
    assert rows[..|rows|] == rows;
  }

  lemma CountSnoc(rows: seq<Row>, r: Row, l: Hash)
    ensures CountLayer(rows + [r], l) == CountLayer(rows, l) + if r.layer == l then 1 else 0
  {
    assert (rows + [r])[..|rows|] == rows;
  }

  class MetadataStore {
    var entries: map<Hash, Entry>
    var layers: map<Hash, Layer>
    var rows: seq<Row>

    ghost function Contents(): Tables
      reads this
    {
      Tables(entries, layers, rows)
    }

    constructor ()
      ensures Contents() == EMPTY
    {
      entries, layers, rows := map[], map[], [];
    }

    method Insert(hash: Hash, path: string, size: nat, now: int)
      modifies this
      ensures Contents() == Apply(old(Contents()), Op.Insert(hash, path, size, now))
    {
      if hash in entries {
        var e := entries[hash];
        entries := entries[hash := e.(lastUsed := now, hitCount := e.hitCount + 1)];
      } else {
        entries := entries[hash := Entry(path, size, now, now, 0, false)];
      }
    }

    method InsertLayer(hash: Hash, path: string, size: nat, now: int)
      modifies this
      ensures Contents() == Apply(old(Contents()), Op.InsertLayer(hash, path, size, now))
    {
      if hash in layers {
        layers := layers[hash := layers[hash].(lastUsed := now)];
      } else {
        layers := layers[hash := Layer(path, size, now, now, 0)];
      }
    }

    /** One transaction; `ok == false` is the foreign key failure, after which nothing has changed. */
    method InsertLayeredNode(node: Hash, size: nat, list: seq<Hash>, now: int) returns (ok: bool)
      modifies this
      ensures ok == Accepts(old(Contents()), list)
      ensures Contents() == Apply(old(Contents()), Register(node, size, list, now))
    {
      var txRows := DeleteRows(rows, node);
      var txLayers;
      ok, txLayers, txRows := MapLayers(layers, txRows, node, list);
      if ok {
        entries := UpsertEntry(entries, node, Entry("", size, now, now, 0, true));
        layers, rows := txLayers, txRows;
      }
    }

    method GetNodeLayers(node: Hash) returns (r: Option<seq<Hash>>)
      ensures r == NodeLayers(Contents(), node)
    {
      var found: seq<Hash> := [];
      for i := 0 to |rows|
        invariant found == LayersIn(RowsOf(rows[..i], node))
      {
        assert rows[..i + 1][..i] == rows[..i];
        if rows[i].node == node {
          found := found + [rows[i].layer];
        }
      }
      assert rows[..|rows|] == rows;
      if found == [] && node !in entries {
        return None;
      }
      return Some(found);
    }

    method Delete(hash: Hash)
      modifies this
      ensures Contents() == Apply(old(Contents()), Op.Delete(hash))
    {
      var released := LayersMappedBy(rows, hash);
      layers := map l | l in layers ::
        if l in released then layers[l].(refCount := layers[l].refCount - 1) else layers[l];
      assert layers == Released(old(layers), RowsOf(rows, hash));
      rows := DeleteRows(rows, hash);
      entries := entries - {hash};
    }

    /** `ok == false` when a mapping row still names the layer. */
    method DeleteLayerMetadata(hash: Hash) returns (ok: bool)
      modifies this`layers
      ensures ok == (CountLayer(rows, hash) == 0)
      ensures layers == if ok then old(layers) - {hash} else old(layers)
    {
      ok := true;
      for i := 0 to |rows|
        invariant layers == old(layers)
        invariant ok == (CountLayer(rows[..i], hash) == 0)
      {
        assert rows[..i + 1][..i] == rows[..i];
        if rows[i].layer == hash {
          ok := false;
        }
      }
      assert rows[..|rows|] == rows;
      if ok {
        layers := layers - {hash};
      }
    }
  }
}
