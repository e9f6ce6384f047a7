/** The hash-chained audit log: appending, verifying, and what the chain pins down. */
module Auditing {
  import opened Common

  datatype EventType =
    | CacheRead | CacheWrite | NodeJoin | NodeLeave | GcRun | ScaleUp | ScaleDown
    | TokenCreated | TokenRevoked | BuildStarted | BuildCompleted | BuildFailed

  function EventName(t: EventType): string {
    match t
    case CacheRead => "cache.read"
    case CacheWrite => "cache.write"
    case NodeJoin => "cluster.node.join"
    case NodeLeave => "cluster.node.leave"
    case GcRun => "gc.run"
    case ScaleUp => "scaling.up"
    case ScaleDown => "scaling.down"
    case TokenCreated => "auth.token.created"
    case TokenRevoked => "auth.token.revoked"
    case BuildStarted => "build.started"
    case BuildCompleted => "build.completed"
    case BuildFailed => "build.failed"
  }

  /** `details` is the JSON text of the event's details. */
  datatype Event = Event(kind: EventType, actor: string, resource: string, action: string, details: string)

  /** `timestamp` is the RFC 3339 text of the entry's time. */
  datatype Entry = Entry(timestamp: string, event: Event, prevHash: string, hash: string)

  const HASH_LENGTH: nat := 64

  /** 64 zeros. */
  const GENESIS: string := "0000000000000000000000000000000000000000000000000000000000000000"

  /** The fields in the order they are hashed. */
  function Pieces(timestamp: string, e: Event): seq<string> {
    [timestamp, EventName(e.kind), e.actor, e.resource, e.action, e.details]
  }

  function Payload(e: Entry): string {
    Joined(Pieces(e.timestamp, e.event))
  }

  /** What the chain sees of an entry; its hashed text is `payload + prev`, without separators. */
  datatype Link = Link(payload: string, prev: string, hash: string)

  function LinkOf(e: Entry): Link {
    Link(Payload(e), e.prevHash, e.hash)
  }

  function Links(entries: seq<Entry>): seq<Link> {
    seq(|entries|, i requires 0 <= i < |entries| => LinkOf(entries[i]))
  }

  function ComputeHash(H: string -> string, l: Link): string {
    H(l.payload + l.prev)
  }

  /** The hash an entry at index `i` must link back to. */
  function HashBefore(links: seq<Link>, i: nat): string
    requires i <= |links|
  {
    if i == 0 then GENESIS else links[i - 1].hash
  }

  function HeadHash(links: seq<Link>): string {
    HashBefore(links, |links|)
  }

  /** What `verify` checks of one entry. */
  predicate LinkHolds(H: string -> string, links: seq<Link>, i: nat)
    requires i < |links|
  {
    links[i].prev == HashBefore(links, i) && links[i].hash == ComputeHash(H, links[i])
  }

  ghost predicate Chained(H: string -> string, links: seq<Link>) {
    forall i: nat :: i < |links| ==> LinkHolds(H, links, i)
  }

  function NewEntry(H: string -> string, timestamp: string, event: Event, prevHash: string): Entry {
    var e := Entry(timestamp, event, prevHash, "");
    e.(hash := ComputeHash(H, LinkOf(e)))
  }

  datatype Append = Append(timestamp: string, event: Event)

  function LogOf(H: string -> string, appends: seq<Append>): seq<Entry> {
    if appends == [] then []
    else
      var before, a := LogOf(H, appends[..|appends| - 1]), appends[|appends| - 1];
      before + [NewEntry(H, a.timestamp, a.event, HeadHash(Links(before)))]
  }

  // ----- verification -----------------------------------------------------------------

  lemma ExtendChained(H: string -> string, links: seq<Link>, l: Link)
    requires Chained(H, links)
    ensures Chained(H, links + [l]) <==> l.prev == HeadHash(links) && l.hash == ComputeHash(H, l)
  {
    var all := links + [l];
    assert LinkHolds(H, all, |links|) <==> l.prev == HeadHash(links) && l.hash == ComputeHash(H, l);
    forall i: nat | i < |links| ensures LinkHolds(H, all, i) {
      assert LinkHolds(H, links, i);
    }
  }

  /** Cutting entries off the end is not noticed by `verify`. */
  lemma PrefixesVerify(H: string -> string, links: seq<Link>, n: nat)
    requires Chained(H, links) && n <= |links|
    ensures Chained(H, links[..n])
  {
    forall i: nat | i < n ensures LinkHolds(H, links[..n], i) {
      assert LinkHolds(H, links, i);
    }
  }

  lemma BrokenPrefixBreaksLog(H: string -> string, links: seq<Link>, n: nat)
    requires n <= |links|
    ensures Chained(H, links) ==> Chained(H, links[..n])
  {
    if Chained(H, links) {
      PrefixesVerify(H, links, n);
    }
  }

  lemma AppendKeepsChained(H: string -> string, entries: seq<Entry>, timestamp: string, event: Event)
    requires Chained(H, Links(entries))
    ensures Chained(H, Links(entries + [NewEntry(H, timestamp, event, HeadHash(Links(entries)))]))
  {
    var e := NewEntry(H, timestamp, event, HeadHash(Links(entries)));
    assert Links(entries + [e]) == Links(entries) + [LinkOf(e)];
    ExtendChained(H, Links(entries), LinkOf(e));
  }

  /** Every log built by appending verifies, and so does each of its prefixes. */
  lemma {:induction false} AppendedLogsVerify(H: string -> string, appends: seq<Append>, n: nat)
    requires n <= |appends|
    ensures |LogOf(H, appends)| == |appends|
    ensures Chained(H, Links(LogOf(H, appends))) && Chained(H, Links(LogOf(H, appends)[..n]))
  {
    if appends != [] {
      var init, a := appends[..|appends| - 1], appends[|appends| - 1];
      AppendedLogsVerify(H, init, 0);
      AppendKeepsChained(H, LogOf(H, init), a.timestamp, a.event);
    }
    var log := LogOf(H, appends);
    PrefixesVerify(H, Links(log), n);
    assert Links(log[..n]) == Links(log)[..n];
  }

  /** The hash does not collide on the texts of these two logs: each entry's payload followed by the hash before it. */
  ghost predicate CollisionFree(H: string -> string, a: seq<Link>, b: seq<Link>) {
    forall i, j :: 0 <= i < |a| && 0 <= j < |b| ==> Apart(H, a[i], b[j])
  }

  ghost predicate Apart(H: string -> string, l: Link, m: Link) {
    H(l.payload + l.prev) == H(m.payload + m.prev) ==> l.payload + l.prev == m.payload + m.prev
  }

  /** On the texts of this log the hash is well-sized and never the genesis value. */
  ghost predicate ProperHashes(H: string -> string, links: seq<Link>) {
    forall i :: 0 <= i < |links| ==> Proper(H(links[i].payload + links[i].prev))
  }

  predicate Proper(hash: string) {
    |hash| == HASH_LENGTH && hash != GENESIS
  }

  lemma BackLinks(H: string -> string, links: seq<Link>, n: nat)
    requires Chained(H, links) && ProperHashes(H, links) && n <= |links|
    ensures HashBefore(links, n) == GENESIS <==> n == 0
    ensures |HashBefore(links, n)| == HASH_LENGTH
  {
    if n > 0 {
      assert LinkHolds(H, links, n - 1) && Proper(H(links[n - 1].payload + links[n - 1].prev));
    }
  }

  lemma LinksAgree(H: string -> string, a: seq<Link>, b: seq<Link>, m: nat, n: nat)
    requires Chained(H, a) && Chained(H, b) && ProperHashes(H, a) && ProperHashes(H, b) && CollisionFree(H, a, b)
    requires m < |a| && n < |b| && a[m].hash == b[n].hash
    ensures a[m] == b[n]
  {
    assert LinkHolds(H, a, m) && LinkHolds(H, b, n) && Apart(H, a[m], b[n]);
    BackLinks(H, a, m);
    BackLinks(H, b, n);
    SplitsAt(a[m].payload, a[m].prev, b[n].payload, b[n].prev);
  }

  lemma StepBack(H: string -> string, a: seq<Link>, b: seq<Link>, m: nat, n: nat)
    requires Chained(H, a) && Chained(H, b) && ProperHashes(H, a) && ProperHashes(H, b) && CollisionFree(H, a, b)
    requires m < |a| && n < |b| && a[m].hash == b[n].hash
    ensures a[m] == b[n] && HashBefore(a, m) == HashBefore(b, n)
  {
    LinksAgree(H, a, b, m, n);
    assert LinkHolds(H, a, m) && LinkHolds(H, b, n);
  }

  lemma {:induction false} HashPinsPrefix(H: string -> string, a: seq<Link>, b: seq<Link>, m: nat, n: nat)
    requires Chained(H, a) && Chained(H, b) && ProperHashes(H, a) && ProperHashes(H, b) && CollisionFree(H, a, b)
    requires m <= |a| && n <= |b| && HashBefore(a, m) == HashBefore(b, n)
    ensures m == n && forall i :: 0 <= i < m ==> a[i] == b[i]
  {
    BackLinks(H, a, m);
    BackLinks(H, b, n);
    if m > 0 {
      StepBack(H, a, b, m - 1, n - 1);
      HashPinsPrefix(H, a, b, m - 1, n - 1);
    }
  }

  /**
    The head hash pins the whole log: two verifying logs with the same final hash have the
    same length and, at every entry, the same serialized fields, links and hashes.
   */
  lemma HeadHashPinsLog(H: string -> string, a: seq<Link>, b: seq<Link>)
    requires Chained(H, a) && Chained(H, b) && ProperHashes(H, a) && ProperHashes(H, b) && CollisionFree(H, a, b)
    requires HeadHash(a) == HeadHash(b)
    ensures a == b
  {
    HashPinsPrefix(H, a, b, |a|, |b|);
  }

  /** Event kinds have different names. */
  lemma EventNamesDiffer(a: EventType, b: EventType)
    requires EventName(a) == EventName(b)
    ensures a == b
  {
    assert |EventName(a)| == |EventName(b)| && EventName(a)[0] == EventName(b)[0];
    assert |EventName(a)| > 11 ==> EventName(a)[11] == EventName(b)[11];
  }

  /** A single field of an entry, all others being kept. */
  datatype Field = TimeIs(text: string) | KindIs(kind: EventType) | ActorIs(text: string)
                 | ResourceIs(text: string) | ActionIs(text: string) | DetailsAre(text: string)

  function Slot(f: Field): nat {
    match f
    case TimeIs(_) => 0
    case KindIs(_) => 1
    case ActorIs(_) => 2
    case ResourceIs(_) => 3
    case ActionIs(_) => 4
    case DetailsAre(_) => 5
  }

  function WithField(e: Entry, f: Field): Entry {
    match f
    case TimeIs(t) => e.(timestamp := t)
    case KindIs(k) => e.(event := e.event.(kind := k))
    case ActorIs(t) => e.(event := e.event.(actor := t))
    case ResourceIs(t) => e.(event := e.event.(resource := t))
    case ActionIs(t) => e.(event := e.event.(action := t))
    case DetailsAre(t) => e.(event := e.event.(details := t))
  }

  function FieldText(f: Field): string {
    if f.KindIs? then EventName(f.kind) else f.text
  }

  lemma WithFieldIsPiece(e: Entry, f: Field)
    ensures Payload(WithField(e, f)) == Joined(Pieces(e.timestamp, e.event)[Slot(f) := FieldText(f)])
  {
    var e' := WithField(e, f);
    assert Pieces(e'.timestamp, e'.event) == Pieces(e.timestamp, e.event)[Slot(f) := FieldText(f)];
  }

  /** Every field enters the hashed text: changing one alone always changes it. */
  lemma EveryFieldIsHashed(e: Entry, f: Field, f': Field)
    requires Slot(f) == Slot(f')
    ensures Payload(WithField(e, f)) == Payload(WithField(e, f')) <==> f == f'
  {
    WithFieldIsPiece(e, f);
    WithFieldIsPiece(e, f');
    OnePieceCounts(Pieces(e.timestamp, e.event), Slot(f), FieldText(f), FieldText(f'));
    if f.KindIs? && FieldText(f) == FieldText(f') {
      EventNamesDiffer(f.kind, f'.kind);
    }
  }

  // ----- tampering ----------------------------------------------------------------------------

  lemma LinkTamperIsNoticed(H: string -> string, links: seq<Link>, i: nat, payload: string)
    requires Chained(H, links) && i < |links| && payload != links[i].payload
    requires Apart(H, links[i], links[i].(payload := payload))
    ensures !Chained(H, links[i := links[i].(payload := payload)])
  {
    var tampered := links[i := links[i].(payload := payload)];
    assert LinkHolds(H, links, i);
    if LinkHolds(H, tampered, i) {
      SplitsAt(links[i].payload, links[i].prev, payload, links[i].prev);
    }
  }

  /**
    Tamper evidence: a verifying log in which any one field of any one entry was changed
    and the stored hashes were kept does not verify.
   */
  lemma TamperIsNoticed(H: string -> string, log: seq<Entry>, i: nat, f: Field)
    requires Chained(H, Links(log)) && i < |log| && WithField(log[i], f) != log[i]
    requires Apart(H, LinkOf(log[i]), LinkOf(WithField(log[i], f)))
    ensures !Chained(H, Links(log[i := WithField(log[i], f)]))
  {
    var e, e' := log[i], WithField(log[i], f);
    if Payload(e) == Payload(e') {
      FieldOf(e, Slot(f));
      EveryFieldIsHashed(e, f, FieldAt(e, Slot(f)));
    }
    LinkTamperIsNoticed(H, Links(log), i, Payload(e'));
    assert Links(log[i := e']) == Links(log)[i := LinkOf(e')];
  }

  function FieldAt(e: Entry, slot: nat): Field {
    match slot
    case 0 => TimeIs(e.timestamp)
    case 1 => KindIs(e.event.kind)
    case 2 => ActorIs(e.event.actor)
    case 3 => ResourceIs(e.event.resource)
    case 4 => ActionIs(e.event.action)
    case _ => DetailsAre(e.event.details)
  }

  lemma FieldOf(e: Entry, slot: nat)
    requires slot < 6
    ensures Slot(FieldAt(e, slot)) == slot && WithField(e, FieldAt(e, slot)) == e
  {
  }

  /** Changing where an entry links to, its hashes kept, is noticed as well. */
  lemma RelinkingIsNoticed(H: string -> string, log: seq<Entry>, i: nat, prev: string)
    requires Chained(H, Links(log)) && i < |log| && prev != log[i].prevHash
    ensures !Chained(H, Links(log[i := log[i].(prevHash := prev)]))
  {
    var relinked := log[i := log[i].(prevHash := prev)];
    assert LinkHolds(H, Links(log), i);
    assert HashBefore(Links(relinked), i) == HashBefore(Links(log), i);
    assert !LinkHolds(H, Links(relinked), i);
  }

  // ----- where fields end --------------------------------------------------------------------

  /** The event with text added at the end of the field in this slot. */
  function AppendTo(e: Event, slot: nat, text: string): Event {
    match slot
    case 2 => e.(actor := e.actor + text)
    case 3 => e.(resource := e.resource + text)
    case 4 => e.(action := e.action + text)
    case _ => e
  }

  /** The event with text added in front of the field in this slot. */
  function PrependTo(e: Event, slot: nat, text: string): Event {
    match slot
    case 3 => e.(resource := text + e.resource)
    case 4 => e.(action := text + e.action)
    case 5 => e.(details := text + e.details)
    case _ => e
  }

  /** Fields are not separated: text may move between neighbouring ones from the actor to the details unnoticed. */
  lemma FieldBoundariesAreNotPinned(
    H: string -> string, timestamp: string, e: Event, slot: nat, moved: string, prevHash: string)
    requires 2 <= slot <= 4
    ensures LinkOf(NewEntry(H, timestamp, AppendTo(e, slot, moved), prevHash)) ==
            LinkOf(NewEntry(H, timestamp, PrependTo(e, slot + 1, moved), prevHash))
  {
    var pieces := Pieces(timestamp, e);
    var u, w := pieces[slot], pieces[slot + 1];
    assert pieces[slot := u + moved][slot + 1 := w] == Pieces(timestamp, AppendTo(e, slot, moved));
    assert pieces[slot := u][slot + 1 := moved + w] == Pieces(timestamp, PrependTo(e, slot + 1, moved));
    BoundariesDoNotCount(pieces, slot, u, moved, w);
  }

  ghost predicate SameShape(a: Entry, b: Entry) {
    SameLengths(Pieces(a.timestamp, a.event), Pieces(b.timestamp, b.event))
  }

  /** The hashed text pins an entry's fields if and only if it is known how long they are. */
  lemma PayloadPinsFieldsIff(a: Entry, b: Entry)
    ensures a.timestamp == b.timestamp && a.event == b.event <==> Payload(a) == Payload(b) && SameShape(a, b)
  {
    var x, y := Pieces(a.timestamp, a.event), Pieces(b.timestamp, b.event);
    JoinedPinsIff(x, y);
    if x == y {
      assert forall i :: 0 <= i < 6 ==> x[i] == y[i];
      assert x[0] == y[0] && x[1] == y[1] && x[2] == y[2] && x[3] == y[3] && x[4] == y[4] && x[5] == y[5];
      EventNamesDiffer(a.event.kind, b.event.kind);
    }
  }

  /**
    Two verifying logs with the same final hash are the same log, field by field, if and
    only if the fields of each entry are as long as those of its counterpart.
   */
  lemma HeadHashPinsFieldsIff(H: string -> string, a: seq<Entry>, b: seq<Entry>)
    requires Chained(H, Links(a)) && Chained(H, Links(b)) && CollisionFree(H, Links(a), Links(b))
    requires ProperHashes(H, Links(a)) && ProperHashes(H, Links(b)) && HeadHash(Links(a)) == HeadHash(Links(b))
    ensures |a| == |b| && (a == b <==> forall i :: 0 <= i < |a| ==> SameShape(a[i], b[i]))
  {
    HeadHashPinsLog(H, Links(a), Links(b));
    assert |Links(a)| == |Links(b)|;
    forall i | 0 <= i < |a| ensures a[i] == b[i] <==> SameShape(a[i], b[i]) {
      assert Links(a)[i] == LinkOf(a[i]) && Links(b)[i] == LinkOf(b[i]);
      PayloadPinsFieldsIff(a[i], b[i]);
    }
  }

  // ----- the log --------------------------------------------------------------------------

  class AuditLog {
    const H: string -> string
    var entries: seq<Entry>
    var lastHash: string

    ghost predicate Valid()
      reads this
    {
      Chained(H, Links(entries)) && lastHash == HeadHash(Links(entries))
    }

    constructor (H: string -> string)
      ensures Valid() && this.H == H && entries == []
    {
      this.H, entries, lastHash := H, [], GENESIS;
    }

    method AppendEvent(timestamp: string, event: Event)
      requires Valid()
      modifies this
      ensures Valid() && entries == old(entries) + [NewEntry(H, timestamp, event, HeadHash(Links(old(entries))))]
    {
      AppendKeepsChained(H, entries, timestamp, event);
      var entry := NewEntry(H, timestamp, event, lastHash);
      lastHash := entry.hash;
      entries := entries + [entry];
    }
  }

  method Verify(H: string -> string, entries: seq<Entry>) returns (ok: bool)
    ensures ok == Chained(H, Links(entries))
  {
    ok := VerifyLinks(H, Links(entries));
  }

  method VerifyLinks(H: string -> string, links: seq<Link>) returns (ok: bool)
    ensures ok == Chained(H, links)
  {
    var prev := GENESIS;
    for i := 0 to |links|
      invariant Chained(H, links[..i]) && prev == HeadHash(links[..i])
    {
      var link := links[i];
      assert links[..i + 1] == links[..i] + [link];
      ExtendChained(H, links[..i], link);
      if link.prev != prev || ComputeHash(H, link) != link.hash {
        BrokenPrefixBreaksLog(H, links, i + 1);
        return false;
      }
      prev := link.hash;
    }
    assert links[..|links|] == links;
    return true;
  }
}
