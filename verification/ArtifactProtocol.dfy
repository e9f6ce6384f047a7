/**
  The layered artifact protocol under concurrency: any number of clients, each of which
  may be anywhere inside a put or a get, one remote call per step, every interleaving,
  clients that crash included. No sweep runs meanwhile. Clients may encode bodies on
  the wire; the server hashes and stores what it receives.
 */
module ArtifactProtocol {
  import opened Common
  import opened Metadata
  import opened GarbageCollection
  import opened Chunking

  type ClientId = nat

  /** The content hash, and how a client encodes a body it sends and decodes one it receives. */
  datatype Net = Net(H: Bytes -> Hash, encode: Bytes -> Bytes, decode: Bytes -> Option<Bytes>)

  /** What is encoded decodes back; every run below is over such a wire. */
  ghost predicate RoundTrips(net: Net) {
    forall body :: net.decode(net.encode(body)) == Some(body)
  }

  /** How a finished get was answered; `FromLayers` records the artifact registered when the list was read. */
  datatype Source = FromLocal | FromLayers(expected: Bytes) | FromPlain

  datatype Phase =
    | Idle
    | Checking(key: Hash, data: Bytes, i: nat)  // about to ask has_layer for chunk i, or to register
    | Storing(key: Hash, data: Bytes, i: nat)   // chunk i was missing: about to put_layer it
    | PutDone(key: Hash, data: Bytes, ok: bool) // not ok: an upload or the registration was refused
    | Listing(key: Hash)                        // about to ask get_node_layers
    | Fetching(key: Hash, want: seq<Hash>, got: seq<Bytes>, expected: Bytes)
    | FallingBack(key: Hash)                    // no layer list: about to ask for a plain artifact
    | GetDone(key: Hash, answer: Result<Option<Bytes>>, source: Source)

  /** `registered` is history: the artifact of the latest registration of each key. */
  datatype World = World(
    server: Server,
    locals: map<ClientId, map<Hash, Bytes>>,
    phases: map<ClientId, Phase>,
    registered: map<Hash, Bytes>)

  datatype Step =
    | StartPut(c: ClientId, key: Hash, data: Bytes)
    | StartGet(c: ClientId, key: Hash)
    | Advance(c: ClientId, now: int)
    | Crash(c: ClientId)

  const NEW_WORLD := World(NEW_SERVER, map[], map[], map[])

  function PhaseOf(w: World, c: ClientId): Phase {
    if c in w.phases then w.phases[c] else Idle
  }

  function LocalOf(w: World, c: ClientId): map<Hash, Bytes> {
    if c in w.locals then w.locals[c] else map[]
  }

  predicate Ready(p: Phase) {
    p.Idle? || p.PutDone? || p.GetDone?
  }

  function Goto(w: World, c: ClientId, p: Phase): World {
    w.(phases := w.phases[c := p])
  }

  function KeepLocally(w: World, c: ClientId, key: Hash, data: Bytes): World {
    w.(locals := w.locals[c := LocalOf(w, c)[key := data]])
  }

  function AdvancePut(net: Net, w: World, c: ClientId, now: int): World
    requires PhaseOf(w, c).Checking? || PhaseOf(w, c).Storing?
  {
    var p := PhaseOf(w, c);
    var chunks := Chunks(p.data);
    match p
    case Checking(key, data, i) =>
      if i < |chunks| then
        Goto(w, c, if net.H(chunks[i]) in w.server.t.layers then Checking(key, data, i + 1) else Storing(key, data, i))
      else
        var list := Hashes(net.H, chunks);
        var ok := Accepts(w.server.t, list);
        Goto(w, c, PutDone(key, data, ok)).(
          server := Handle(net.H, w.server, RegisterNode(key, |data|, list, now)),
          registered := if ok then w.registered[key := data] else w.registered)
    case Storing(key, data, i) =>
      if i < |chunks| then
        var body := net.encode(chunks[i]);
        var accepted := net.H(body) == net.H(chunks[i]);
        Goto(w, c, if accepted then Checking(key, data, i + 1) else PutDone(key, data, false)).(
          server := Handle(net.H, w.server, PutLayer(net.H(chunks[i]), body, now)))
      else w
  }

  /** A layer the client can read: stored, and decodable. */
  function Fetched(net: Net, s: Server, l: Hash): Option<Bytes> {
    if l in s.blobs then net.decode(s.blobs[l]) else None
  }

  function AdvanceGet(net: Net, w: World, c: ClientId, now: int): World
    requires PhaseOf(w, c).Listing? || PhaseOf(w, c).Fetching? || PhaseOf(w, c).FallingBack?
  {
    match PhaseOf(w, c)
    case Listing(key) =>
      (match NodeLayers(w.server.t, key)
       case Some(list) =>
         Goto(w, c, Fetching(key, list, [], if key in w.registered then w.registered[key] else []))
       case None => Goto(w, c, FallingBack(key)))
    case Fetching(key, want, got, expected) =>
      if |got| < |want| then
        if Fetched(net, w.server, want[|got|]).Some? then
          Goto(w, c, Fetching(key, want, got + [Fetched(net, w.server, want[|got|]).value], expected))
        else
          Goto(w, c, GetDone(key, Err, FromLayers(expected)))
      else
        KeepLocally(Goto(w, c, GetDone(key, Ok(Some(Merge(got))), FromLayers(expected))), c, key, Merge(got))
    case FallingBack(key) =>
      if key in w.server.blobs then
        (match net.decode(w.server.blobs[key])
         case Some(data) => KeepLocally(Goto(w, c, GetDone(key, Ok(Some(data)), FromPlain)), c, key, data)
         case None => Goto(w, c, GetDone(key, Err, FromPlain))).(
          server := Handle(net.H, w.server, TouchEntry(key, now)))
      else
        Goto(w, c, GetDone(key, Ok(None), FromPlain))
  }

  /** Steps that are not enabled leave the world alone. */
  function Next(net: Net, w: World, step: Step): World {
    var p := PhaseOf(w, step.c);
    match step
    case StartPut(c, key, data) =>
      if Ready(p) then KeepLocally(Goto(w, c, Checking(key, data, 0)), c, key, data) else w
    case StartGet(c, key) =>
      if !Ready(p) then w
      else if key in LocalOf(w, c) then Goto(w, c, GetDone(key, Ok(Some(LocalOf(w, c)[key])), FromLocal))
      else Goto(w, c, Listing(key))
    case Advance(c, now) =>
      if p.Checking? || p.Storing? then AdvancePut(net, w, c, now)
      else if Ready(p) then w
      else AdvanceGet(net, w, c, now)
    case Crash(c) => Goto(w, c, Idle)
  }

  function Behave(net: Net, steps: seq<Step>): World {
    if steps == [] then NEW_WORLD else Next(net, Behave(net, steps[..|steps| - 1]), steps[|steps| - 1])
  }

  // ----- invariant -----------------------------------------------------------

  ghost predicate AllStored(t: Tables, list: seq<Hash>, upto: nat) {
    upto <= |list| && forall j :: 0 <= j < upto ==> list[j] in t.layers
  }

  /** A registered key lists exactly the chunk hashes of its artifact, all of them stored. */
  ghost predicate KeyOk(net: Net, t: Tables, registered: map<Hash, Bytes>, key: Hash) {
    if key in registered then
      var list := Hashes(net.H, Chunks(registered[key]));
      key in t.entries && NodeLayers(t, key) == Some(list) && AllStored(t, list, |list|)
    else
      key !in t.entries && RowsOf(t.rows, key) == []
  }

  /** Bodies decode to content with the same hash, so an encoding that was accepted is harmless. */
  ghost predicate BlobsDecode(net: Net, blobs: map<Hash, Bytes>) {
    forall h :: h in blobs ==> net.decode(blobs[h]).Some? && net.H(net.decode(blobs[h]).value) == h
  }

  /** The server accepts a body for a layer exactly when encoding it leaves its hash alone. */
  ghost predicate Transparent(net: Net, data: Bytes) {
    forall i :: 0 <= i < |Chunks(data)| ==> net.H(net.encode(Chunks(data)[i])) == net.H(Chunks(data)[i])
  }

  ghost predicate ServerOk(net: Net, w: World) {
    && w.server.t.layers.Keys <= w.server.blobs.Keys
    && BlobsAddressed(net.H, w.server) && BlobsDecode(net, w.server.blobs)
    && forall key :: KeyOk(net, w.server.t, w.registered, key)
  }

  ghost predicate PhaseOk(net: Net, t: Tables, p: Phase) {
    match p
    case Checking(_, data, i) => AllStored(t, Hashes(net.H, Chunks(data)), i)
    case Storing(_, data, i) => i < |Chunks(data)| && AllStored(t, Hashes(net.H, Chunks(data)), i)
    case PutDone(_, data, ok) => Transparent(net, data) ==> ok
    case Fetching(_, want, got, expected) =>
      && want == Hashes(net.H, Chunks(expected)) && AllStored(t, want, |want|)
      && |got| <= |want| && forall j :: 0 <= j < |got| ==> net.H(got[j]) == want[j]
    case GetDone(_, answer, FromLayers(expected)) =>
      answer.Ok? && answer.value.Some? && (Injective(net.H) ==> answer.value.value == expected)
    case GetDone(_, answer, _) => answer.Ok?
    case _ => true
  }

  ghost predicate Inv(net: Net, w: World) {
    ServerOk(net, w) && forall c :: PhaseOk(net, w.server.t, PhaseOf(w, c))
  }

  /** Without sweeps layers only accumulate, so other clients' phases stay sound. */
  lemma PhaseStable(net: Net, t: Tables, t': Tables, p: Phase)
    requires PhaseOk(net, t, p) && t.layers.Keys <= t'.layers.Keys
    ensures PhaseOk(net, t', p)
  {
  }

  lemma RegisterKeepsServer(net: Net, w: World, w': World, key: Hash, data: Bytes, now: int)
    requires ServerOk(net, w)
    requires var list := Hashes(net.H, Chunks(data)); AllStored(w.server.t, list, |list|)
    requires w'.server == Handle(net.H, w.server, RegisterNode(key, |data|, Hashes(net.H, Chunks(data)), now))
    requires w'.registered == w.registered[key := data]
    ensures ServerOk(net, w') && w.server.t.layers.Keys <= w'.server.t.layers.Keys
  {
    var list := Hashes(net.H, Chunks(data));
    assert Accepts(w.server.t, list);
    forall k ensures KeyOk(net, w'.server.t, w'.registered, k) {
      assert KeyOk(net, w.server.t, w.registered, k);
      RegisterThenRead(w.server.t, key, |data|, list, now, k);
      RowsAfterRegister(w.server.t.rows, key, list, k);
    }
  }

  lemma StoreKeepsServer(net: Net, w: World, w': World, chunk: Bytes, now: int)
    requires ServerOk(net, w)
    requires w'.server == Handle(net.H, w.server, PutLayer(net.H(chunk), net.encode(chunk), now))
    requires w'.registered == w.registered && RoundTrips(net)
    ensures ServerOk(net, w') && w.server.t.layers.Keys <= w'.server.t.layers.Keys
    ensures net.H(net.encode(chunk)) == net.H(chunk) ==> net.H(chunk) in w'.server.t.layers
  {
    forall k ensures KeyOk(net, w'.server.t, w'.registered, k) {
      assert KeyOk(net, w.server.t, w.registered, k);
    }
  }

  lemma AdvancePutKeepsInv(net: Net, w: World, c: ClientId, now: int)
    requires Inv(net, w) && (PhaseOf(w, c).Checking? || PhaseOf(w, c).Storing?)
    requires RoundTrips(net)
    ensures Inv(net, AdvancePut(net, w, c, now))
  {
    var p, w' := PhaseOf(w, c), AdvancePut(net, w, c, now);
    var chunks := Chunks(p.data);
    assert PhaseOk(net, w.server.t, p);
    if p.Storing? {
      StoreKeepsServer(net, w, w', chunks[p.i], now);
    } else if p.i == |chunks| {
      assert Accepts(w.server.t, Hashes(net.H, chunks));
      RegisterKeepsServer(net, w, w', p.key, p.data, now);
    }
    forall d ensures PhaseOk(net, w'.server.t, PhaseOf(w', d)) {
      assert PhaseOk(net, w.server.t, PhaseOf(w, d));
      if d != c {
        PhaseStable(net, w.server.t, w'.server.t, PhaseOf(w, d));
      }
    }
  }

  lemma FetchedIsExpected(net: Net, got: seq<Bytes>, expected: Bytes)
    requires Injective(net.H)
    requires |got| == |Chunks(expected)|
    requires forall j :: 0 <= j < |got| ==> net.H(got[j]) == Hashes(net.H, Chunks(expected))[j]
    ensures Merge(got) == expected
  {
    assert got == Chunks(expected);
    MergeUndoesSplit(expected);
  }

  lemma TouchKeepsServer(net: Net, w: World, w': World, key: Hash, now: int)
    requires ServerOk(net, w)
    requires w'.server == Handle(net.H, w.server, TouchEntry(key, now)) && w'.registered == w.registered
    ensures ServerOk(net, w') && w'.server.t.layers == w.server.t.layers
  {
    forall k ensures KeyOk(net, w'.server.t, w'.registered, k) {
      assert KeyOk(net, w.server.t, w.registered, k);
    }
  }

  lemma AdvanceGetKeepsInv(net: Net, w: World, c: ClientId, now: int)
    requires Inv(net, w) && (PhaseOf(w, c).Listing? || PhaseOf(w, c).Fetching? || PhaseOf(w, c).FallingBack?)
    ensures Inv(net, AdvanceGet(net, w, c, now))
  {
    var p, w' := PhaseOf(w, c), AdvanceGet(net, w, c, now);
    if p.FallingBack? && p.key in w.server.blobs {
      TouchKeepsServer(net, w, w', p.key, now);
    }
    assert PhaseOk(net, w.server.t, p);
    assert KeyOk(net, w.server.t, w.registered, p.key);
    if p.Fetching? && |p.got| == |p.want| && Injective(net.H) {
      FetchedIsExpected(net, p.got, p.expected);
    }
    assert PhaseOk(net, w'.server.t, PhaseOf(w', c));
    forall d | d != c ensures PhaseOk(net, w'.server.t, PhaseOf(w', d)) {
      assert PhaseOk(net, w.server.t, PhaseOf(w, d));
      PhaseStable(net, w.server.t, w'.server.t, PhaseOf(w, d));
    }
  }

  lemma NextKeepsInv(net: Net, w: World, step: Step)
    requires Inv(net, w) && RoundTrips(net)
    ensures Inv(net, Next(net, w, step))
  {
    var p := PhaseOf(w, step.c);
    if step.Advance? && !Ready(p) {
      if p.Checking? || p.Storing? {
        AdvancePutKeepsInv(net, w, step.c, step.now);
      } else {
        AdvanceGetKeepsInv(net, w, step.c, step.now);
      }
    } else {
      var w' := Next(net, w, step);
      forall d ensures PhaseOk(net, w'.server.t, PhaseOf(w', d)) {
        assert PhaseOk(net, w.server.t, PhaseOf(w, d));
      }
    }
  }

  lemma {:induction false} EveryRunKeepsInv(net: Net, steps: seq<Step>)
    requires RoundTrips(net)
    ensures Inv(net, Behave(net, steps))
  {
    if steps != [] {
      EveryRunKeepsInv(net, steps[..|steps| - 1]);
      NextKeepsInv(net, Behave(net, steps[..|steps| - 1]), steps[|steps| - 1]);
    }
  }

  // ----- progress --------------------------------------------------------------

  /** Remote calls a put still has to make, at most. */
  function Work(p: Phase): nat {
    match p
    case Checking(_, data, i) => if i <= |Chunks(data)| then 2 * (|Chunks(data)| - i) + 1 else 1
    case Storing(_, data, i) => if i <= |Chunks(data)| then 2 * (|Chunks(data)| - i) else 0
    case _ => 0
  }

  ghost predicate PuttingOrDone(w: World, c: ClientId, key: Hash, data: Bytes) {
    var p := PhaseOf(w, c);
    (p.Checking? || p.Storing? || p.PutDone?) && p.key == key && p.data == data
  }

  lemma PutAdvances(net: Net, w: World, c: ClientId, now: int, key: Hash, data: Bytes)
    requires Inv(net, w) && PuttingOrDone(w, c, key, data)
    ensures var w' := Next(net, w, Advance(c, now));
            PuttingOrDone(w', c, key, data) && Work(PhaseOf(w', c)) <= Less(Work(PhaseOf(w, c)), 1)
  {
    assert PhaseOk(net, w.server.t, PhaseOf(w, c));
  }

  function Less(n: nat, turns: nat): nat {
    if n > turns then n - turns else 0
  }

  function Turn(step: Step, c: ClientId): nat {
    if step.Advance? && step.c == c then 1 else 0
  }

  lemma PutStep(net: Net, w: World, step: Step, c: ClientId, key: Hash, data: Bytes)
    requires Inv(net, w) && PuttingOrDone(w, c, key, data) && (step.c != c || step.Advance?)
    ensures var w' := Next(net, w, step);
            PuttingOrDone(w', c, key, data) && Work(PhaseOf(w', c)) <= Less(Work(PhaseOf(w, c)), Turn(step, c))
  {
    if step.c == c {
      PutAdvances(net, w, c, step.now, key, data);
    } else {
      OthersStepsKeepPhase(net, w, step, c);
    }
  }

  function Turns(steps: seq<Step>, c: ClientId): nat {
    if steps == [] then 0
    else Turns(steps[..|steps| - 1], c) + Turn(steps[|steps| - 1], c)
  }

  /** Steps of other clients, and the client's own turns. */
  ghost predicate LeavesClient(steps: seq<Step>, c: ClientId) {
    forall i :: 0 <= i < |steps| ==> steps[i].c != c || steps[i].Advance?
  }

  lemma {:induction false} PutProgresses(
    net: Net, before: seq<Step>, steps: seq<Step>, c: ClientId, key: Hash, data: Bytes)
    requires PuttingOrDone(Behave(net, before), c, key, data) && LeavesClient(steps, c) && RoundTrips(net)
    ensures var w, w' := Behave(net, before), Behave(net, before + steps);
            PuttingOrDone(w', c, key, data) && Work(PhaseOf(w', c)) <= Less(Work(PhaseOf(w, c)), Turns(steps, c))
  {
    if steps == [] {
      assert before + steps == before;
    } else {
      var init, last := steps[..|steps| - 1], steps[|steps| - 1];
      PutProgresses(net, before, init, c, key, data);
      assert (before + steps)[..|before + steps| - 1] == before + init;
      EveryRunKeepsInv(net, before + init);
      PutStep(net, Behave(net, before + init), last, c, key, data);
    }
  }

  lemma OthersStepsKeepPhase(net: Net, w: World, step: Step, c: ClientId)
    requires step.c != c
    ensures PhaseOf(Next(net, w, step), c) == PhaseOf(w, c)
  {
  }

  lemma PutStarts(net: Net, before: seq<Step>, c: ClientId, key: Hash, data: Bytes)
    requires Ready(PhaseOf(Behave(net, before), c))
    ensures PhaseOf(Behave(net, before + [StartPut(c, key, data)]), c) == Checking(key, data, 0)
  {
    assert (before + [StartPut(c, key, data)])[..|before|] == before;
  }

  lemma NoWorkIsDone(net: Net, w: World, c: ClientId, key: Hash, data: Bytes)
    requires Inv(net, w) && PuttingOrDone(w, c, key, data) && Work(PhaseOf(w, c)) == 0
    ensures PhaseOf(w, c).PutDone? && (Transparent(net, data) ==> PhaseOf(w, c).ok)
  {
    assert PhaseOk(net, w.server.t, PhaseOf(w, c));
  }

  /**
    However other clients interleave, a put that is not crashed is over within two turns
    per chunk plus one, and has succeeded if the wire leaves its chunks' hashes alone.
   */
  lemma PutCompletes(net: Net, before: seq<Step>, c: ClientId, key: Hash, data: Bytes, steps: seq<Step>)
    requires RoundTrips(net) && Ready(PhaseOf(Behave(net, before), c)) && LeavesClient(steps, c)
    requires Turns(steps, c) >= 2 * |Chunks(data)| + 1
    ensures var p := PhaseOf(Behave(net, before + [StartPut(c, key, data)] + steps), c);
            p.PutDone? && p.key == key && p.data == data && (Transparent(net, data) ==> p.ok)
  {
    var started := before + [StartPut(c, key, data)];
    PutStarts(net, before, c, key, data);
    PutProgresses(net, started, steps, c, key, data);
    EveryRunKeepsInv(net, started + steps);
    NoWorkIsDone(net, Behave(net, started + steps), c, key, data);
  }

  // ----- puts of what is stored already -----------------------------------------------

  /** The put is `turns` turns old, has checked one chunk in each and found every one stored. */
  ghost predicate Skipping(net: Net, w: World, c: ClientId, key: Hash, data: Bytes, turns: nat) {
    var list := Hashes(net.H, Chunks(data));
    && AllStored(w.server.t, list, |list|)
    && (PhaseOf(w, c) == PutDone(key, data, true) || (PhaseOf(w, c) == Checking(key, data, turns) && turns <= |list|))
  }

  lemma SkipAdvances(net: Net, w: World, c: ClientId, now: int, key: Hash, data: Bytes, turns: nat)
    requires Inv(net, w) && RoundTrips(net) && Skipping(net, w, c, key, data, turns)
    ensures Skipping(net, Next(net, w, Advance(c, now)), c, key, data, turns + 1)
  {
    var list := Hashes(net.H, Chunks(data));
    assert Accepts(w.server.t, list);
    NextKeepsLayers(net, w, Advance(c, now));
    assert turns < |list| ==> list[turns] in w.server.t.layers;
  }

  /** Without sweeps no layer row is lost. */
  lemma NextKeepsLayers(net: Net, w: World, step: Step)
    ensures w.server.t.layers.Keys <= Next(net, w, step).server.t.layers.Keys
  {
    var p := PhaseOf(w, step.c);
    if step.Advance? && !Ready(p) {
      if p.Checking? || p.Storing? {
        AdvancePutKeepsLayers(net, w, step.c, step.now);
      } else {
        AdvanceGetKeepsLayers(net, w, step.c, step.now);
      }
    }
  }

  lemma AdvancePutKeepsLayers(net: Net, w: World, c: ClientId, now: int)
    requires PhaseOf(w, c).Checking? || PhaseOf(w, c).Storing?
    ensures w.server.t.layers.Keys <= AdvancePut(net, w, c, now).server.t.layers.Keys
  {
  }

  lemma AdvanceGetKeepsLayers(net: Net, w: World, c: ClientId, now: int)
    requires PhaseOf(w, c).Listing? || PhaseOf(w, c).Fetching? || PhaseOf(w, c).FallingBack?
    ensures w.server.t.layers.Keys <= AdvanceGet(net, w, c, now).server.t.layers.Keys
  {
  }

  lemma SkipStep(net: Net, w: World, step: Step, c: ClientId, key: Hash, data: Bytes, turns: nat)
    requires Inv(net, w) && RoundTrips(net) && Skipping(net, w, c, key, data, turns)
    requires step.c != c || step.Advance?
    ensures Skipping(net, Next(net, w, step), c, key, data, turns + Turn(step, c))
  {
    if step.c == c {
      SkipAdvances(net, w, c, step.now, key, data, turns);
    } else {
      OthersStepsKeepPhase(net, w, step, c);
      NextKeepsLayers(net, w, step);
    }
  }

  lemma BehaveSnoc(net: Net, steps: seq<Step>, step: Step)
    ensures Behave(net, steps + [step]) == Next(net, Behave(net, steps), step)
  {
    assert (steps + [step])[..|steps|] == steps;
  }

  lemma {:induction false} SkipProgresses(
    net: Net, before: seq<Step>, steps: seq<Step>, c: ClientId, key: Hash, data: Bytes)
    requires Skipping(net, Behave(net, before), c, key, data, 0) && LeavesClient(steps, c) && RoundTrips(net)
    ensures Skipping(net, Behave(net, before + steps), c, key, data, Turns(steps, c))
  {
    if steps == [] {
      assert before + steps == before;
    } else {
      var init, last := steps[..|steps| - 1], steps[|steps| - 1];
      SkipProgresses(net, before, init, c, key, data);
      EveryRunKeepsInv(net, before + init);
      assert before + steps == (before + init) + [last];
      SkipStep(net, Behave(net, before + init), last, c, key, data, Turns(init, c));
      BehaveSnoc(net, before + init, last);
    }
  }

  /**
    A put of chunks the server has already uploads none of them: it succeeds within one turn
    per chunk plus one, over every wire, however other clients interleave.
   */
  lemma StoredPutSkipsUploads(net: Net, before: seq<Step>, c: ClientId, key: Hash, data: Bytes, steps: seq<Step>)
    requires RoundTrips(net) && Ready(PhaseOf(Behave(net, before), c)) && LeavesClient(steps, c)
    requires var list := Hashes(net.H, Chunks(data)); AllStored(Behave(net, before).server.t, list, |list|)
    requires Turns(steps, c) >= |Chunks(data)| + 1
    ensures PhaseOf(Behave(net, before + [StartPut(c, key, data)] + steps), c) == PutDone(key, data, true)
  {
    var started := before + [StartPut(c, key, data)];
    PutStarts(net, before, c, key, data);
    BehaveSnoc(net, before, StartPut(c, key, data));
    SkipProgresses(net, started, steps, c, key, data);
  }

  // ----- gets ------------------------------------------------------------------

  /** The get is `turns` turns old: where it must be by then. */
  ghost predicate Getting(w: World, c: ClientId, key: Hash, turns: nat) {
    match PhaseOf(w, c)
    case Listing(k) => k == key && turns == 0
    case Fetching(k, _, got, _) => k == key && turns == |got| + 1
    case FallingBack(k) => k == key && turns == 1
    case GetDone(k, _, source) => k == key && !source.FromLocal?
    case _ => false
  }

  /** The get does not fall back: it is about to list a registered key, or reads layers. */
  ghost predicate ReadsLayers(w: World, c: ClientId, key: Hash) {
    var p := PhaseOf(w, c);
    (p.Listing? && key in w.registered) || p.Fetching? || (p.GetDone? && p.source.FromLayers?)
  }

  lemma GetAdvances(net: Net, w: World, c: ClientId, now: int, key: Hash, turns: nat)
    requires Getting(w, c, key, turns)
    ensures Getting(Next(net, w, Advance(c, now)), c, key, turns + 1)
  {
  }

  lemma LayeredGetAdvances(net: Net, w: World, c: ClientId, now: int, key: Hash, turns: nat)
    requires Inv(net, w) && Getting(w, c, key, turns) && ReadsLayers(w, c, key)
    ensures ReadsLayers(Next(net, w, Advance(c, now)), c, key)
  {
    assert KeyOk(net, w.server.t, w.registered, key);
  }

  /** A key once registered stays so. */
  lemma NextKeepsRegistered(net: Net, w: World, step: Step)
    ensures w.registered.Keys <= Next(net, w, step).registered.Keys
  {
  }

  lemma GetStep(net: Net, w: World, step: Step, c: ClientId, key: Hash, turns: nat)
    requires Inv(net, w) && Getting(w, c, key, turns) && (step.c != c || step.Advance?)
    ensures Getting(Next(net, w, step), c, key, turns + Turn(step, c))
    ensures ReadsLayers(w, c, key) ==> ReadsLayers(Next(net, w, step), c, key)
  {
    if step.c == c {
      GetAdvances(net, w, c, step.now, key, turns);
      if ReadsLayers(w, c, key) {
        LayeredGetAdvances(net, w, c, step.now, key, turns);
      }
    } else {
      OthersStepsKeepPhase(net, w, step, c);
      NextKeepsRegistered(net, w, step);
    }
  }

  ghost predicate GettingWell(w: World, c: ClientId, key: Hash, turns: nat, layered: bool) {
    Getting(w, c, key, turns) && (layered ==> ReadsLayers(w, c, key))
  }

  lemma GetRunStep(net: Net, sofar: seq<Step>, step: Step, c: ClientId, key: Hash, turns: nat, layered: bool)
    requires RoundTrips(net) && GettingWell(Behave(net, sofar), c, key, turns, layered)
    requires step.c != c || step.Advance?
    ensures GettingWell(Behave(net, sofar + [step]), c, key, turns + Turn(step, c), layered)
  {
    EveryRunKeepsInv(net, sofar);
    GetStep(net, Behave(net, sofar), step, c, key, turns);
    BehaveSnoc(net, sofar, step);
  }

  lemma {:induction false} GetProgresses(
    net: Net, before: seq<Step>, steps: seq<Step>, c: ClientId, key: Hash, layered: bool)
    requires GettingWell(Behave(net, before), c, key, 0, layered) && LeavesClient(steps, c) && RoundTrips(net)
    ensures GettingWell(Behave(net, before + steps), c, key, Turns(steps, c), layered)
  {
    if steps == [] {
      assert before + steps == before;
    } else {
      var init, last := steps[..|steps| - 1], steps[|steps| - 1];
      GetProgresses(net, before, init, c, key, layered);
      assert before + steps == (before + init) + [last];
      GetRunStep(net, before + init, last, c, key, Turns(init, c), layered);
    }
  }

  lemma GetStarts(net: Net, before: seq<Step>, c: ClientId, key: Hash)
    requires Ready(PhaseOf(Behave(net, before), c)) && key !in LocalOf(Behave(net, before), c)
    ensures var w := Behave(net, before + [StartGet(c, key)]);
            PhaseOf(w, c) == Listing(key) && w.registered == Behave(net, before).registered
  {
    assert (before + [StartGet(c, key)])[..|before|] == before;
  }

  /**
    However other clients interleave, a get that is not crashed is over within two turns more
    than the artifact it reads has chunks, or within two turns if it falls back; a get of
    a registered key never falls back.
   */
  lemma GetCompletes(net: Net, before: seq<Step>, c: ClientId, key: Hash, steps: seq<Step>)
    requires RoundTrips(net) && LeavesClient(steps, c)
    requires Ready(PhaseOf(Behave(net, before), c)) && key !in LocalOf(Behave(net, before), c)
    ensures var p, turns := PhaseOf(Behave(net, before + [StartGet(c, key)] + steps), c), Turns(steps, c);
            && (p.GetDone? || p.Fetching? || p.FallingBack? || p.Listing?) && p.key == key
            && (p.Fetching? ==> turns <= |Chunks(p.expected)| + 1)
            && (p.FallingBack? ==> turns <= 1) && (p.Listing? ==> turns == 0)
            && (key in Behave(net, before).registered ==>
                  !p.FallingBack? && (p.GetDone? ==> p.source.FromLayers?))
  {
    var started := before + [StartGet(c, key)];
    GetStarts(net, before, c, key);
    GetProgresses(net, started, steps, c, key, key in Behave(net, before).registered);
    EveryRunKeepsInv(net, started + steps);
    var w := Behave(net, started + steps);
    assert PhaseOk(net, w.server.t, PhaseOf(w, c));
  }

  // ----- local copies ------------------------------------------------------------

  /** What the client put or read last is in its local store, and a successful put is registered. */
  ghost predicate Kept(w: World, c: ClientId) {
    var local := LocalOf(w, c);
    match PhaseOf(w, c)
    case Checking(key, data, _) => key in local && local[key] == data
    case Storing(key, data, _) => key in local && local[key] == data
    case PutDone(key, data, ok) => key in local && local[key] == data && (ok ==> key in w.registered)
    case GetDone(key, Ok(Some(data)), _) => key in local && local[key] == data
    case _ => true
  }

  lemma AdvancePutKeeps(net: Net, w: World, c: ClientId, now: int)
    requires Kept(w, c) && (PhaseOf(w, c).Checking? || PhaseOf(w, c).Storing?)
    ensures Kept(AdvancePut(net, w, c, now), c)
  {
  }

  lemma AdvanceGetKeeps(net: Net, w: World, c: ClientId, now: int)
    requires PhaseOf(w, c).Listing? || PhaseOf(w, c).Fetching? || PhaseOf(w, c).FallingBack?
    ensures Kept(AdvanceGet(net, w, c, now), c)
  {
  }

  lemma OwnStepKeeps(net: Net, w: World, step: Step)
    requires Kept(w, step.c)
    ensures Kept(Next(net, w, step), step.c)
  {
    var p := PhaseOf(w, step.c);
    if step.Advance? && !Ready(p) {
      if p.Checking? || p.Storing? {
        AdvancePutKeeps(net, w, step.c, step.now);
      } else {
        AdvanceGetKeeps(net, w, step.c, step.now);
      }
    }
  }

  lemma OthersStepsKeepLocal(net: Net, w: World, step: Step, c: ClientId)
    requires step.c != c
    ensures LocalOf(Next(net, w, step), c) == LocalOf(w, c)
  {
  }

  lemma {:induction false} EveryRunKeeps(net: Net, steps: seq<Step>, c: ClientId)
    ensures Kept(Behave(net, steps), c)
  {
    if steps != [] {
      var w, step := Behave(net, steps[..|steps| - 1]), steps[|steps| - 1];
      EveryRunKeeps(net, steps[..|steps| - 1], c);
      if step.c == c {
        OwnStepKeeps(net, w, step);
      } else {
        OthersStepsKeepPhase(net, w, step, c);
        OthersStepsKeepLocal(net, w, step, c);
        NextKeepsRegistered(net, w, step);
      }
    }
  }

  /** After every run, a client that has just put or read an artifact gets it back at once, without the server. */
  lemma HandledIsReadLocally(net: Net, steps: seq<Step>, c: ClientId)
    ensures var p := PhaseOf(Behave(net, steps), c);
            var again := (key: Hash) => PhaseOf(Behave(net, steps + [StartGet(c, key)]), c);
            && (p.PutDone? ==> again(p.key) == GetDone(p.key, Ok(Some(p.data)), FromLocal))
            && (p.GetDone? && p.answer.Ok? && p.answer.value.Some? ==>
                  again(p.key) == GetDone(p.key, p.answer, FromLocal))
  {
    EveryRunKeeps(net, steps, c);
    forall key ensures Behave(net, steps + [StartGet(c, key)]) == Next(net, Behave(net, steps), StartGet(c, key)) {
      assert (steps + [StartGet(c, key)])[..|steps|] == steps;
    }
  }

  /** The step on which a put succeeds registers its artifact. */
  lemma SuccessRegisters(net: Net, w: World, c: ClientId, now: int)
    requires PhaseOf(w, c).Checking? || PhaseOf(w, c).Storing?
    ensures var p, w' := PhaseOf(w, c), Next(net, w, Advance(c, now));
            PhaseOf(w', c) == PutDone(p.key, p.data, true) ==>
              p.key in w'.registered && w'.registered[p.key] == p.data
  {
  }

  // ----- what every interleaving guarantees ----------------------------------

  /** Every layer of every registered node is stored, under its own hash. */
  lemma RegisteredLayersAreStored(net: Net, steps: seq<Step>, key: Hash, l: Hash)
    requires RoundTrips(net)
    requires var w := Behave(net, steps);
             NodeLayers(w.server.t, key).Some? && l in NodeLayers(w.server.t, key).value
    ensures var w := Behave(net, steps);
            l in w.server.t.layers && l in w.server.blobs && net.H(w.server.blobs[l]) == l
  {
    var w := Behave(net, steps);
    EveryRunKeepsInv(net, steps);
    assert KeyOk(net, w.server.t, w.registered, key);
  }

  /** The put did not fail, the get was not answered with an error, and no listed layer was missing. */
  predicate Unfailed(p: Phase) {
    && (p.PutDone? ==> p.ok)
    && (p.GetDone? ==> p.answer.Ok? && (p.source.FromLayers? ==> p.answer.value.Some?))
  }

  /** No get ever fails, and no put of an artifact with a transparent encoding fails. */
  lemma NoClientFails(net: Net, steps: seq<Step>, c: ClientId)
    requires RoundTrips(net)
    ensures var p := PhaseOf(Behave(net, steps), c); (p.PutDone? ==> Transparent(net, p.data)) ==> Unfailed(p)
  {
    EveryRunKeepsInv(net, steps);
    assert PhaseOk(net, Behave(net, steps).server.t, PhaseOf(Behave(net, steps), c));
  }

  lemma FirstPutFails(net: Net, key: Hash, data: Bytes)
    requires Chunks(data) != [] && net.H(net.encode(Chunks(data)[0])) != net.H(Chunks(data)[0])
    ensures PhaseOf(Behave(net, [StartPut(0, key, data), Advance(0, 0), Advance(0, 0)]), 0) == PutDone(key, data, false)
  {
    var s0 := StartPut(0, key, data);
    var a := Advance(0, 0);
    assert [s0, a, a][..2] == [s0, a] && [s0, a][..1] == [s0] && [s0][..0] == [];
    assert Behave(net, [s0]) == Next(net, NEW_WORLD, s0);
    assert PhaseOf(Behave(net, [s0, a]), 0) == Storing(key, data, 0);
  }

  /** No client of any run ever fails if and only if encoding leaves the hash of every possible chunk alone. */
  lemma NoClientFailsIffTransparent(net: Net)
    requires RoundTrips(net)
    ensures (forall steps, c :: Unfailed(PhaseOf(Behave(net, steps), c))) <==> (forall data :: Transparent(net, data))
  {
    if forall data :: Transparent(net, data) {
      forall steps, c ensures Unfailed(PhaseOf(Behave(net, steps), c)) {
        NoClientFails(net, steps, c);
      }
    }
    if data :| !Transparent(net, data) {
      var i :| 0 <= i < |Chunks(data)| && net.H(net.encode(Chunks(data)[i])) != net.H(Chunks(data)[i]);
      var chunk := Chunks(data)[i];
      ChunksAreWellChunked(data);
      assert Chunks(chunk) == [chunk];
      FirstPutFails(net, "", chunk);
      assert !Unfailed(PhaseOf(Behave(net, [StartPut(0, "", chunk), Advance(0, 0), Advance(0, 0)]), 0));
    }
  }

  // ----- a wire that changes every hash ---------------------------------------

  /** Encoding changes the hash of every possible chunk, as compression does. */
  ghost predicate HashChanging(net: Net) {
    forall chunk: Bytes :: 0 < |chunk| <= CHUNK_SIZE ==> net.H(net.encode(chunk)) != net.H(chunk)
  }

  ghost predicate BarrenPhase(p: Phase) {
    match p
    case Checking(_, _, i) => i == 0
    case Storing(_, data, i) => i == 0 && data != []
    case PutDone(_, data, ok) => ok <==> data == []
    case _ => true
  }

  ghost predicate Barren(w: World) {
    w.server.t.layers == map[] && forall c :: BarrenPhase(PhaseOf(w, c))
  }

  lemma AdvancePutStaysBarren(net: Net, w: World, c: ClientId, now: int)
    requires HashChanging(net) && Barren(w) && (PhaseOf(w, c).Checking? || PhaseOf(w, c).Storing?)
    ensures var w' := AdvancePut(net, w, c, now); w'.server.t.layers == map[] && BarrenPhase(PhaseOf(w', c))
  {
    assert BarrenPhase(PhaseOf(w, c));
    ChunksAreWellChunked(PhaseOf(w, c).data);
  }

  lemma AdvanceGetStaysBarren(net: Net, w: World, c: ClientId, now: int)
    requires Barren(w) && (PhaseOf(w, c).Listing? || PhaseOf(w, c).Fetching? || PhaseOf(w, c).FallingBack?)
    ensures var w' := AdvanceGet(net, w, c, now); w'.server.t.layers == map[] && BarrenPhase(PhaseOf(w', c))
  {
  }

  lemma OwnStepStaysBarren(net: Net, w: World, step: Step)
    requires HashChanging(net) && Barren(w)
    ensures var w' := Next(net, w, step); w'.server.t.layers == map[] && BarrenPhase(PhaseOf(w', step.c))
  {
    var p := PhaseOf(w, step.c);
    assert BarrenPhase(p);
    if step.Advance? && !Ready(p) {
      if p.Checking? || p.Storing? {
        AdvancePutStaysBarren(net, w, step.c, step.now);
      } else {
        AdvanceGetStaysBarren(net, w, step.c, step.now);
      }
    }
  }

  lemma NextStaysBarren(net: Net, w: World, step: Step)
    requires HashChanging(net) && Barren(w)
    ensures Barren(Next(net, w, step))
  {
    OwnStepStaysBarren(net, w, step);
    forall c | c != step.c ensures BarrenPhase(PhaseOf(Next(net, w, step), c)) {
      OthersStepsKeepPhase(net, w, step, c);
    }
  }

  /**
    Over such a wire the server refuses every layer: in no run is one ever stored, and a put
    that ends succeeds exactly when the artifact is empty.
   */
  lemma {:induction false} HashChangingWireStoresNothing(net: Net, steps: seq<Step>)
    requires HashChanging(net)
    ensures Barren(Behave(net, steps))
  {
    if steps != [] {
      HashChangingWireStoresNothing(net, steps[..|steps| - 1]);
      NextStaysBarren(net, Behave(net, steps[..|steps| - 1]), steps[|steps| - 1]);
    }
  }

  // ----- reconstruction ---------------------------------------------------------

  /** With a collision-free hash each reconstruction is the artifact registered when its list was read. */
  lemma ReconstructionIsExact(net: Net, steps: seq<Step>, c: ClientId)
    requires RoundTrips(net) && Injective(net.H)
    requires var p := PhaseOf(Behave(net, steps), c); p.GetDone? && p.source.FromLayers?
    ensures var p := PhaseOf(Behave(net, steps), c); p.answer == Ok(Some(p.source.expected))
  {
    EveryRunKeepsInv(net, steps);
    assert PhaseOk(net, Behave(net, steps).server.t, PhaseOf(Behave(net, steps), c));
  }
}
